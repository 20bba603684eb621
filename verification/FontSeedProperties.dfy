/** The font-seeding protocol over launches, bundle changes and owner deletions. */
module FontSeedProperties {
  import opened Text
  import opened FontLedger
  import opened FontSeed
  import opened FontTiers

  // --- one pass, family by family ---

  lemma {:induction false} SeededUpToAt(card: Card, b: Bundle, clones: Clones, tiers: seq<string>, n: nat, f: string)
    requires WellFormed(b) && n <= |b.listing|
    ensures EntryAt(SeedUpTo(card, b, clones, tiers, n), f) ==
      if f in b.listing[..n] && Listed(b, f) && !OwnerDeleted(card, f)
      then Some(SeedFamily(b.dirs[f], EntryAt(card.fonts, f), clones(f), tiers))
      else EntryAt(card.fonts, f)
  {
    hide SeedFamily, Parse;
    if n > 0 {
      SeededUpToAt(card, b, clones, tiers, n - 1, f);
      assert b.listing[..n] == b.listing[..n - 1] + [b.listing[n - 1]];
    }
  }

  /** After a pass every family is seeded or was left to its owner, and nothing else is touched. */
  lemma PassAt(card: Card, b: Bundle, clones: Clones, scale: nat, f: string)
    requires WellFormed(b)
    ensures EntryAt(Pass(card, Some(b), clones, scale).fonts, f) ==
      if Listed(b, f) && !OwnerDeleted(card, f)
      then Some(SeedFamily(b.dirs[f], EntryAt(card.fonts, f), clones(f), Tiers(scale)))
      else EntryAt(card.fonts, f)
  {
    hide SeedFamily, Parse, Print;
    SeededUpToAt(card, b, clones, Tiers(scale), |b.listing|, f);
    assert b.listing[..|b.listing|] == b.listing;
  }

  lemma {:induction false} FamiliesAreListed(b: Bundle, n: nat, f: string)
    requires n <= |b.listing|
    ensures f in Families(b, n) <==> f in b.listing[..n] && Listed(b, f)
  {
    if n > 0 {
      FamiliesAreListed(b, n - 1, f);
      assert b.listing[..n] == b.listing[..n - 1] + [b.listing[n - 1]];
    }
  }

  function AllFamilies(b: Bundle): seq<string> {
    Families(b, |b.listing|)
  }

  /** The bundle's families are its directories whose names do not begin with a dot. */
  lemma FamilyIffListed(b: Bundle, f: string)
    ensures f in AllFamilies(b) <==> Listed(b, f)
    ensures f in AllFamilies(b) <==> f in b.listing && f in b.dirs && (f == "" || f[0] != '.')
  {
    FamiliesAreListed(b, |b.listing|, f);
    assert b.listing[..|b.listing|] == b.listing;
  }

  /** After a pass the ledger names exactly the bundle's family directories, in listing order,
      if and only if every one of those names survives being a line of text. */
  lemma LedgerNamesBundle(card: Card, b: Bundle, clones: Clones, scale: nat)
    ensures Ledger(Pass(card, Some(b), clones, scale)) == AllFamilies(b) <==> AllPlain(AllFamilies(b))
  {
    LedgerRoundTrip(AllFamilies(b));
  }

  lemma LedgerHas(card: Card, b: Bundle, clones: Clones, scale: nat, f: string)
    requires Listed(b, f)
    ensures f in Ledger(Pass(card, Some(b), clones, scale)) <==> Plain(f)
  {
    FamilyIffListed(b, f);
    PlainIsFound(AllFamilies(b), f);
  }

  lemma LedgerIsPlain(card: Card, f: string)
    ensures f in Ledger(card) ==> Plain(f)
  {
    if card.ledger.Some? {
      ParseIsPlain(card.ledger.value);
    }
  }

  // --- runs ---

  /** A launch of some build, or the owner rearranging fonts/ between launches. */
  datatype Event =
    | Launch(bundle: Option<Bundle>, clones: Clones, scale: nat)
    | Owner(fonts: Fonts)

  function Step(card: Card, e: Event): Card {
    match e
    case Launch(bundle, clones, scale) => Pass(card, bundle, clones, scale)
    case Owner(fonts) => card.(fonts := fonts)
  }

  function After(card: Card, events: seq<Event>): Card
    decreases |events|
  {
    if events == [] then card else After(Step(card, events[0]), events[1..])
  }

  predicate Absent(card: Card, f: string) {
    !IsDirectory(EntryAt(card.fonts, f))
  }

  /** The family stays bundled, and the owner does not put it back. */
  predicate KeepsOut(e: Event, f: string) {
    match e
    case Launch(None, _, _) => true
    case Launch(Some(b), _, _) => WellFormed(b) && Listed(b, f)
    case Owner(fonts) => !IsDirectory(EntryAt(fonts, f))
  }

  /** A listed family found absent stays absent and listed, over any launches that keep bundling it. */
  lemma {:induction false} DeletedStaysDeleted(card: Card, events: seq<Event>, f: string)
    requires f in Ledger(card) && Absent(card, f)
    requires forall i :: 0 <= i < |events| ==> KeepsOut(events[i], f)
    ensures f in Ledger(After(card, events)) && Absent(After(card, events), f)
    decreases |events|
  {
    hide SeedFamily, SeedUpTo, Families, Parse, Print, Tiers;
    if events != [] {
      var e := events[0];
      assert KeepsOut(e, f);
      if e.Launch? && e.bundle.Some? {
        LedgerIsPlain(card, f);
        PassAt(card, e.bundle.value, e.clones, e.scale, f);
        LedgerHas(card, e.bundle.value, e.clones, e.scale, f);
      }
      forall i | 0 <= i < |events[1..]| ensures KeepsOut(events[1..][i], f) {
        assert events[1..][i] == events[i + 1];
      }
      DeletedStaysDeleted(Step(card, e), events[1..], f);
    }
  }

  /** A bundled family the owner deletes after a pass is left deleted by the next one
      exactly when its name survives the ledger's text. */
  lemma DeletionSticksIffPlain(card: Card, b: Bundle, c1: Clones, c2: Clones, scale: nat, fonts: Fonts, f: string)
    requires WellFormed(b) && Listed(b, f) && f !in fonts
    ensures var seeded := Pass(card, Some(b), c1, scale);
      var again := Pass(seeded.(fonts := fonts), Some(b), c2, scale);
      f !in again.fonts <==> Plain(f)
  {
    hide SeedFamily, SeedUpTo, Families, Parse, Print, Tiers;
    var deleted := Pass(card, Some(b), c1, scale).(fonts := fonts);
    LedgerHas(card, b, c1, scale, f);
    PassAt(deleted, b, c2, scale, f);
  }

  /** Some family of the bundle has a name whose line in the ledger reads as `f`. */
  ghost predicate Spelled(b: Bundle, f: string) {
    exists n :: n in AllFamilies(b) && f in Parse(n + "\n")
  }

  /** Plain names read as themselves. */
  lemma PlainNamesSpellThemselves(b: Bundle, f: string)
    requires AllPlain(AllFamilies(b))
    ensures Spelled(b, f) <==> Listed(b, f)
  {
    hide Families, Parse, Listed, PrintLines;
    FamilyIffListed(b, f);
    forall n | n in AllFamilies(b) ensures Parse(n + "\n") == [n] {
      PrintedName(n, []);
    }
  }

  /** The bundle of the last launch that had one. */
  function LastBundle(events: seq<Event>): Option<Bundle> {
    if events == [] then None
    else
      var e := events[|events| - 1];
      if e.Launch? && e.bundle.Some? then e.bundle else LastBundle(events[..|events| - 1])
  }

  /** What the card's ledger says of `f` after a run, told from the run. */
  ghost predicate Remembered(card: Card, events: seq<Event>, f: string) {
    match LastBundle(events)
    case None => f in Ledger(card)
    case Some(last) => Spelled(last, f)
  }

  lemma {:induction false} AfterSnoc(card: Card, events: seq<Event>, e: Event)
    ensures After(card, events + [e]) == Step(After(card, events), e)
    decreases |events|
  {
    hide Step;
    if events == [] {
      assert [e][1..] == [];
      assert events + [e] == [e];
    } else {
      assert (events + [e])[1..] == events[1..] + [e];
      AfterSnoc(Step(card, events[0]), events[1..], e);
    }
  }

  /** The ledger is rewritten whole, so only the last bundled launch matters. */
  lemma {:induction false} LedgerRemembers(card: Card, events: seq<Event>, f: string)
    ensures f in Ledger(After(card, events)) <==> Remembered(card, events, f)
    decreases |events|
  {
    hide SeedUpTo, Families, Parse, Print, Tiers;
    if events != [] {
      var init, e := events[..|events| - 1], events[|events| - 1];
      assert events == init + [e];
      AfterSnoc(card, init, e);
      if e.Launch? && e.bundle.Some? {
        LedgerReads(AllFamilies(e.bundle.value), f);
      } else {
        LedgerRemembers(card, init, f);
      }
    }
  }

  // --- what a seeded family holds ---

  /** Visible files are the bundle's, byte for byte, except where a directory was in the way. */
  predicate Matches(from: Folder, before: Folder, after: Folder) {
    && (forall n :: n in after.files && !Hidden(n) ==>
          n in from.files && n !in before.subs && after.files[n] == from.files[n])
    && (forall n :: n in from.files && !Hidden(n) && n !in before.subs ==> n in after.files)
  }

  /** Top-level files match; every tier the bundle carries matches; a tier it does not carry is as it was. */
  ghost predicate UpToDate(from: Folder, before: Folder, after: Folder, scale: nat) {
    && Matches(from, before, after)
    && (forall t :: IsTier(t, scale) && t in from.subs ==>
          t in after.subs && Matches(from.subs[t], SubOf(before, t), after.subs[t]))
  }

  lemma SeedFolderMatches(from: Folder, to: Folder)
    ensures Matches(from, to, SeedFolder(from, to))
  {
  }

  lemma SeededIsUpToDate(from: Folder, to: Folder, scale: nat)
    ensures UpToDate(from, to, Seeded(from, to, Tiers(scale)), scale)
    ensures forall t :: t !in from.subs || !IsTier(t, scale) ==>
      SubOf(Seeded(from, to, Tiers(scale)), t) == SubOf(to, t)
  {
    hide SeedFolder, Tiers, IsTier;
    SeedFolderMatches(from, to);
    forall t ensures t in Tiers(scale) <==> IsTier(t, scale) {
      TiersAreNumbered(scale, t);
    }
    assert Matches(from, to, Seeded(from, to, Tiers(scale))) by {
      assert Seeded(from, to, Tiers(scale)).files == SeedFolder(from, to).files;
    }
    forall t | IsTier(t, scale) && t in from.subs
      ensures Matches(from.subs[t], SubOf(to, t), Seeded(from, to, Tiers(scale)).subs[t])
    {
      SeedFolderMatches(from.subs[t], SubOf(to, t));
    }
  }

  lemma CloneIsUpToDate(from: Folder, scale: nat)
    requires Sane(from)
    ensures UpToDate(from, NO_FILES, from, scale)
  {
  }

  function FolderBefore(e: Option<Entry>): Folder {
    if e.Some? && e.value.Dir? then e.value.folder else NO_FILES
  }

  predicate StrayFileAt(card: Card, f: string) {
    f in card.fonts && card.fonts[f].StrayFile?
  }

  ghost predicate SeededAs(e: Option<Entry>, from: Folder, before: Folder, scale: nat) {
    e.Some? && e.value.Dir? && UpToDate(from, before, e.value.folder, scale)
  }

  /** Every bundled family not left to its owner gets each file that no directory stands in the way of,
      exactly unless a stray file holds its place. */
  lemma PassSeedsWhatFits(card: Card, b: Bundle, clones: Clones, scale: nat, f: string)
    requires WellFormed(b) && Listed(b, f) && !OwnerDeleted(card, f)
    ensures SeededAs(EntryAt(Pass(card, Some(b), clones, scale).fonts, f),
                     b.dirs[f], FolderBefore(EntryAt(card.fonts, f)), scale)
      <==> !StrayFileAt(card, f)
  {
    hide SeedUpTo, Families, Parse, Print, Tiers, SeedFolder, Seeded, UpToDate;
    PassAt(card, b, clones, scale, f);
    SeededIsUpToDate(b.dirs[f], FolderBefore(EntryAt(card.fonts, f)), scale);
    CloneIsUpToDate(b.dirs[f], scale);
  }

  function Visible(files: map<string, string>): map<string, string> {
    map n | n in files && (n == "" || n[0] != '.') :: files[n]
  }

  /** The visible files are the bundle's: no more, no fewer, the same bytes; at the top and in every tier
      the bundle carries. */
  ghost predicate Mirrors(from: Folder, after: Folder, scale: nat) {
    && Visible(after.files) == Visible(from.files)
    && forall t :: IsTier(t, scale) && t in from.subs ==>
         t in after.subs && Visible(after.subs[t].files) == Visible(from.subs[t].files)
  }

  ghost predicate MirrorsAt(e: Option<Entry>, from: Folder, scale: nat) {
    e.Some? && e.value.Dir? && Mirrors(from, e.value.folder, scale)
  }

  /** A directory stands at the name of a visible file. */
  predicate InTheWay(from: Folder, to: Folder) {
    exists n :: n in from.files && !Hidden(n) && n in to.subs
  }

  ghost predicate Blocked(from: Folder, to: Folder, scale: nat) {
    || InTheWay(from, to)
    || exists t :: IsTier(t, scale) && t in from.subs && InTheWay(from.subs[t], SubOf(to, t))
  }

  /** A directory whose files match mirrors the bundle unless something is in the way. */
  lemma MatchesMirrors(from: Folder, before: Folder, after: Folder)
    requires Matches(from, before, after)
    ensures Visible(after.files) == Visible(from.files) <==> !InTheWay(from, before)
  {
    if InTheWay(from, before) {
      var n :| n in from.files && !Hidden(n) && n in before.subs;
      assert n in Visible(from.files) && n !in Visible(after.files);
    } else {
      forall n ensures n in Visible(after.files) <==> n in Visible(from.files) {
      }
    }
  }

  lemma UpToDateMirrors(from: Folder, before: Folder, after: Folder, scale: nat)
    requires UpToDate(from, before, after, scale)
    ensures Mirrors(from, after, scale) <==> !Blocked(from, before, scale)
  {
    hide Matches, Visible, InTheWay, SubOf;
    MatchesMirrors(from, before, after);
    forall t | IsTier(t, scale) && t in from.subs
      ensures Visible(after.subs[t].files) == Visible(from.subs[t].files)
        <==> !InTheWay(from.subs[t], SubOf(before, t))
    {
      MatchesMirrors(from.subs[t], SubOf(before, t), after.subs[t]);
    }
  }

  /** Every bundled family not left to its owner ends with exactly the bundle's visible files, if and only
      if no stray file holds its place and no directory stands at the name of one of those files. */
  lemma PassBringsUpToDate(card: Card, b: Bundle, clones: Clones, scale: nat, f: string)
    requires WellFormed(b) && Listed(b, f) && !OwnerDeleted(card, f)
    ensures MirrorsAt(EntryAt(Pass(card, Some(b), clones, scale).fonts, f), b.dirs[f], scale)
      <==> !StrayFileAt(card, f) && !Blocked(b.dirs[f], FolderBefore(EntryAt(card.fonts, f)), scale)
  {
    hide SeedUpTo, Families, Parse, Print, Tiers, SeedFolder, Seeded, UpToDate, Mirrors, Blocked;
    PassAt(card, b, clones, scale, f);
    PassSeedsWhatFits(card, b, clones, scale, f);
    var e := EntryAt(Pass(card, Some(b), clones, scale).fonts, f);
    if !StrayFileAt(card, f) {
      UpToDateMirrors(b.dirs[f], FolderBefore(EntryAt(card.fonts, f)), e.value.folder, scale);
    }
  }

  /** So a build of scale 2 leaves a carried `2x` byte-equal to the bundle's. */
  lemma TwoXIsSeeded(card: Card, b: Bundle, clones: Clones, scale: nat, f: string)
    requires WellFormed(b) && Listed(b, f) && !OwnerDeleted(card, f) && !StrayFileAt(card, f)
    requires !Blocked(b.dirs[f], FolderBefore(EntryAt(card.fonts, f)), scale)
    requires scale >= 2 && "2x" in b.dirs[f].subs
    ensures var e := EntryAt(Pass(card, Some(b), clones, scale).fonts, f);
      && e.Some? && e.value.Dir? && "2x" in e.value.folder.subs
      && Visible(e.value.folder.subs["2x"].files) == Visible(b.dirs[f].subs["2x"].files)
  {
    hide Pass, Blocked, IsTier;
    TwoXIsATier(scale);
    PassBringsUpToDate(card, b, clones, scale, f);
  }

  lemma NothingBlocksAFreshFamily(from: Folder, scale: nat)
    ensures !Blocked(from, NO_FILES, scale)
  {
  }

  /** A bundled family that is off the card is seeded, whole, if and only if no name in the last bundle
      before has a line that reads as its own; before any bundle, if and only if the card's ledger does not
      name it. Every run, every bundle, whatever the names. */
  lemma ReturningFamilyIsSeeded(card: Card, events: seq<Event>, b: Bundle, clones: Clones, scale: nat, f: string)
    requires WellFormed(b) && Listed(b, f) && f !in After(card, events).fonts
    ensures MirrorsAt(EntryAt(Pass(After(card, events), Some(b), clones, scale).fonts, f), b.dirs[f], scale)
      <==> !Remembered(card, events, f)
    ensures Remembered(card, events, f) ==> f !in Pass(After(card, events), Some(b), clones, scale).fonts
  {
    hide SeedUpTo, Families, Parse, Print, Tiers, SeedFolder, Seeded, Mirrors, Remembered, After, Blocked;
    LedgerRemembers(card, events, f);
    NothingBlocksAFreshFamily(b.dirs[f], scale);
    if Remembered(card, events, f) {
      PassAt(After(card, events), b, clones, scale, f);
    } else {
      PassBringsUpToDate(After(card, events), b, clones, scale, f);
    }
  }

  /** A family whose name is another's with a line before it keeps that other from coming back, although
      no bundle of the run has it. */
  lemma NewlineNameBlocksReturn(card: Card, b: Bundle, before: Clones, clones: Clones, scale: nat)
    requires WellFormed(b) && Listed(b, "B")
    ensures var last := Bundle(["A\nB"], map["A\nB" := NO_FILES]);
      && WellFormed(last) && Listed(last, "A\nB") && !Listed(last, "B")
      && "B" !in Pass(Pass(card, Some(last), before, scale).(fonts := map[]), Some(b), clones, scale).fonts
  {
    hide SeedUpTo, Parse, Print, Tiers, SeedFamily;
    var last := Bundle(["A\nB"], map["A\nB" := NO_FILES]);
    assert last.listing[0] == "A\nB";
    FamilyIffListed(last, "A\nB");
    NewlineNameSpells("A", "B");
    assert "A" + "\n" + "B" == "A\nB";
    LedgerReads(AllFamilies(last), "B");
    PassAt(Pass(card, Some(last), before, scale).(fonts := map[]), b, clones, scale, "B");
  }

  /** What is left to the owner: a family in the ledger with no directory at its name, neither a real one nor
      one behind a link. */
  lemma OwnerDeletedMeans(card: Card, f: string)
    ensures OwnerDeleted(card, f) <==>
      f in Ledger(card) && (f in card.fonts ==> card.fonts[f].StrayFile? || card.fonts[f] == Link(false))
  {
  }

  /** A link an earlier build left is replaced by a real directory with the bundle's files. */
  lemma LinkIsReplaced(card: Card, b: Bundle, clones: Clones, scale: nat, f: string)
    requires WellFormed(b) && Listed(b, f) && f in card.fonts
    requires card.fonts[f] == Link(true) || (card.fonts[f] == Link(false) && f !in Ledger(card))
    ensures MirrorsAt(EntryAt(Pass(card, Some(b), clones, scale).fonts, f), b.dirs[f], scale)
  {
    hide SeedUpTo, Families, Parse, Print, Tiers, SeedFolder, Seeded, Mirrors, Blocked;
    NothingBlocksAFreshFamily(b.dirs[f], scale);
    PassBringsUpToDate(card, b, clones, scale, f);
  }

  /** A family that was not there is the bundle's whole where clonefile works; elsewhere it has the bundle's
      visible files and its tiers, and nothing else of it. */
  lemma FreshFamilyIs(card: Card, b: Bundle, clones: Clones, scale: nat, f: string)
    requires WellFormed(b) && Listed(b, f) && f !in card.fonts && f !in Ledger(card)
    ensures var e, from := EntryAt(Pass(card, Some(b), clones, scale).fonts, f), b.dirs[f];
      && e.Some? && e.value.Dir?
      && (clones(f) ==> e.value.folder == from)
      && (!clones(f) ==>
            && e.value.folder.files == Visible(from.files)
            && (forall t :: t in e.value.folder.subs <==> t in from.subs && IsTier(t, scale))
            && (forall t :: t in e.value.folder.subs ==>
                  e.value.folder.subs[t] == Folder(Visible(from.subs[t].files), map[])))
  {
    hide SeedUpTo, Families, Parse, Print, IsTier;
    PassAt(card, b, clones, scale, f);
    forall t ensures t in Tiers(scale) <==> IsTier(t, scale) {
      TiersAreNumbered(scale, t);
    }
    if !clones(f) {
      FreshFolder(b.dirs[f]);
      forall t | t in b.dirs[f].subs && IsTier(t, scale)
        ensures SeedFolder(b.dirs[f].subs[t], NO_FILES) == Folder(Visible(b.dirs[f].subs[t].files), map[])
      {
        FreshFolder(b.dirs[f].subs[t]);
      }
    }
  }

  lemma FreshFolder(from: Folder)
    ensures SeedFolder(from, NO_FILES) == Folder(Visible(from.files), map[])
  {
  }

  /** In a family that is there, dot files and subdirectories that are no tier of the bundle stay. */
  lemma OwnersFilesStay(card: Card, b: Bundle, clones: Clones, scale: nat, f: string)
    requires WellFormed(b) && Listed(b, f) && f in card.fonts && card.fonts[f].Dir?
    ensures var e, before := EntryAt(Pass(card, Some(b), clones, scale).fonts, f), card.fonts[f].folder;
      && e.Some? && e.value.Dir?
      && (forall n :: n != "" && n[0] == '.' ==> FileAt(e.value.folder.files, n) == FileAt(before.files, n))
      && (forall t :: t !in b.dirs[f].subs || !IsTier(t, scale) ==>
            SubOf(e.value.folder, t) == SubOf(before, t) && (t in e.value.folder.subs <==> t in before.subs))
  {
    hide SeedUpTo, Families, Parse, Print, IsTier;
    PassAt(card, b, clones, scale, f);
    forall t ensures t in Tiers(scale) <==> IsTier(t, scale) {
      TiersAreNumbered(scale, t);
    }
  }

  /** A tier the bundle dropped is neither updated nor pruned: its stale files stay. */
  lemma DroppedTierStays(card: Card, b: Bundle, clones: Clones, scale: nat, f: string, t: string)
    requires WellFormed(b) && Listed(b, f)
    requires f in card.fonts && card.fonts[f].Dir? && t !in b.dirs[f].subs
    ensures var after := Pass(card, Some(b), clones, scale).fonts;
      f in after && after[f].Dir? && SubOf(after[f].folder, t) == SubOf(card.fonts[f].folder, t)
  {
    hide SeedUpTo, Families, Parse, Print, Tiers, SeedFolder, Seeded, SubOf;
    PassAt(card, b, clones, scale, f);
    SeededIsUpToDate(b.dirs[f], card.fonts[f].folder, scale);
  }

  /** Every tier the build asks for holds the bundle's visible files, and none where the bundle has none. */
  ghost predicate MirrorsEveryTier(from: Folder, after: Folder, scale: nat) {
    && Visible(after.files) == Visible(from.files)
    && forall t :: IsTier(t, scale) ==> Visible(SubOf(after, t).files) == Visible(SubOf(from, t).files)
  }

  /** A tier the bundle does not carry had a visible file. */
  ghost predicate Stale(from: Folder, before: Folder, scale: nat) {
    exists t :: IsTier(t, scale) && t !in from.subs && Visible(SubOf(before, t).files) != map[]
  }

  lemma TiersMirror(from: Folder, before: Folder, after: Folder, scale: nat)
    requires UpToDate(from, before, after, scale)
    requires forall t :: t !in from.subs ==> SubOf(after, t) == SubOf(before, t)
    ensures MirrorsEveryTier(from, after, scale) <==> !Blocked(from, before, scale) && !Stale(from, before, scale)
  {
    hide Matches, Blocked, Visible;
    UpToDateMirrors(from, before, after, scale);
    NothingVisible();
    if MirrorsEveryTier(from, after, scale) {
      forall t | IsTier(t, scale) && t in from.subs
        ensures t in after.subs && Visible(after.subs[t].files) == Visible(from.subs[t].files)
      {
        assert SubOf(after, t) == after.subs[t];
      }
    }
  }

  lemma NothingVisible()
    ensures Visible(NO_FILES.files) == map[]
  {
  }

  lemma UncarriedTiersStay(card: Card, b: Bundle, clones: Clones, scale: nat, f: string, t: string)
    requires WellFormed(b) && Listed(b, f) && !OwnerDeleted(card, f) && !StrayFileAt(card, f)
    requires t !in b.dirs[f].subs
    ensures var e := EntryAt(Pass(card, Some(b), clones, scale).fonts, f);
      e.Some? && e.value.Dir? && SubOf(e.value.folder, t) == SubOf(FolderBefore(EntryAt(card.fonts, f)), t)
  {
    hide SeedUpTo, Families, Parse, Print, Tiers, SeedFolder, Seeded, UpToDate;
    PassAt(card, b, clones, scale, f);
    SeededIsUpToDate(b.dirs[f], FolderBefore(EntryAt(card.fonts, f)), scale);
  }

  /** Counting the tiers the bundle does not carry, a family matches the bundle if and only if, besides, none
      of them had a visible file left. */
  lemma PassMatchesBundleIff(card: Card, b: Bundle, clones: Clones, scale: nat, f: string)
    requires WellFormed(b) && Listed(b, f) && !OwnerDeleted(card, f)
    ensures var e := EntryAt(Pass(card, Some(b), clones, scale).fonts, f);
      var before := FolderBefore(EntryAt(card.fonts, f));
      (e.Some? && e.value.Dir? && MirrorsEveryTier(b.dirs[f], e.value.folder, scale))
      <==> !StrayFileAt(card, f) && !Blocked(b.dirs[f], before, scale) && !Stale(b.dirs[f], before, scale)
  {
    hide SeedUpTo, Families, Parse, Print, Tiers, SeedFolder, Seeded, UpToDate, MirrorsEveryTier, Blocked, Stale, SubOf;
    PassAt(card, b, clones, scale, f);
    PassSeedsWhatFits(card, b, clones, scale, f);
    if !StrayFileAt(card, f) {
      var from, before := b.dirs[f], FolderBefore(EntryAt(card.fonts, f));
      var after := EntryAt(Pass(card, Some(b), clones, scale).fonts, f).value.folder;
      forall t | t !in from.subs ensures SubOf(after, t) == SubOf(before, t) {
        UncarriedTiersStay(card, b, clones, scale, f, t);
      }
      TiersMirror(from, before, after, scale);
    }
  }

  // --- a repeat pass changes nothing ---

  lemma FilesTwice(from: Folder, to: Folder, subs: map<string, Folder>)
    requires forall n :: n in from.files ==> (n in subs <==> n in to.subs)
    ensures SeedFolder(from, Folder(SeedFolder(from, to).files, subs)).files == SeedFolder(from, to).files
  {
  }

  lemma TiersTwice(from: Folder, to: Folder, once: Folder, tiers: seq<string>)
    requires once.subs == TierSubs(from, to, tiers)
    ensures TierSubs(from, once, tiers) == once.subs
  {
    hide SeedFolder;
    forall t | t in from.subs && t in tiers ensures SeedFolder(from.subs[t], SubOf(once, t)) == once.subs[t] {
      SeedFolderTwice(from.subs[t], SubOf(to, t));
    }
  }

  lemma SeededTwice(from: Folder, to: Folder, tiers: seq<string>)
    requires Apart(from)
    ensures Seeded(from, Seeded(from, to, tiers), tiers) == Seeded(from, to, tiers)
  {
    hide SeedFolder;
    FilesTwice(from, to, TierSubs(from, to, tiers));
    TiersTwice(from, to, Seeded(from, to, tiers), tiers);
  }

  lemma SeedingACloneChangesNothing(from: Folder, tiers: seq<string>)
    requires Sane(from)
    ensures Seeded(from, from, tiers) == from
  {
    assert SeedFolder(from, from).files == from.files;
    forall t | t in from.subs ensures SeedFolder(from.subs[t], from.subs[t]) == from.subs[t] {
      assert SeedFolder(from.subs[t], from.subs[t]).files == from.subs[t].files;
    }
    assert TierSubs(from, from, tiers) == from.subs;
  }

  lemma SeedFamilyTwice(from: Folder, to: Option<Entry>, c1: bool, c2: bool, tiers: seq<string>)
    requires Sane(from)
    ensures var once := SeedFamily(from, to, c1, tiers);
      SeedFamily(from, Some(once), c2, tiers) == once
  {
    hide Seeded;
    SeededTwice(from, FolderBefore(to), tiers);
    SeedingACloneChangesNothing(from, tiers);
  }

  lemma FontsAgree(a: Fonts, b: Fonts)
    requires forall n :: EntryAt(a, n) == EntryAt(b, n)
    ensures a == b
  {
    forall n ensures n in a <==> n in b && (n in a ==> a[n] == b[n]) {
      assert EntryAt(a, n) == EntryAt(b, n);
    }
  }

  /** A second pass over the same bundle leaves the card exactly as the first one left it. */
  lemma PassTwice(card: Card, b: Bundle, c1: Clones, c2: Clones, scale: nat)
    requires WellFormed(b)
    ensures var once := Pass(card, Some(b), c1, scale);
      Pass(once, Some(b), c2, scale) == once
  {
    hide SeedUpTo, Families, Parse, Print, Tiers, SeedFamily;
    var once := Pass(card, Some(b), c1, scale);
    var twice := Pass(once, Some(b), c2, scale);
    forall f ensures EntryAt(twice.fonts, f) == EntryAt(once.fonts, f) {
      PassAt(card, b, c1, scale, f);
      PassAt(once, b, c2, scale, f);
      if Listed(b, f) {
        LedgerIsPlain(card, f);
        LedgerHas(card, b, c1, scale, f);
        SeedFamilyTwice(b.dirs[f], EntryAt(card.fonts, f), c1(f), c2(f), Tiers(scale));
      }
    }
    FontsAgree(twice.fonts, once.fonts);
  }
}
