/** Seeding the card's fonts from the app bundle (ios/CrossPointFsPrep.cpp). The filesystem is maps;
    copies succeed, and a directory is listed in whatever order it likes. */
module FontSeed {
  import opened Text
  import opened FontLedger

  /** A family directory: files by name, and subdirectories. */
  datatype Folder = Folder(files: map<string, string>, subs: map<string, Folder>)

  const NO_FILES := Folder(map[], map[])

  /** What can stand at `fonts/<family>`: a stray file, a link an earlier build left, a directory. */
  datatype Entry = StrayFile(bytes: string) | Link(toDirectory: bool) | Dir(folder: Folder)

  type Fonts = map<string, Entry>

  datatype Card = Card(fonts: Fonts, ledger: Option<string>)

  /** SeedFonts/: its entries as readdir lists them, and which of them are directories. */
  datatype Bundle = Bundle(listing: seq<string>, dirs: map<string, Folder>)

  /** Whether clonefile works, asked family by family. */
  type Clones = string -> bool

  /** No name is a file and a directory at once. */
  predicate Apart(f: Folder) {
    forall n :: n in f.files ==> n !in f.subs
  }

  /** The same for its subdirectories. */
  predicate Sane(f: Folder) {
    Apart(f) && forall n :: n in f.subs ==> Apart(f.subs[n])
  }

  predicate SaneFonts(fonts: Fonts) {
    forall n :: n in fonts && fonts[n].Dir? ==> Sane(fonts[n].folder)
  }

  predicate Hidden(n: string) {
    n != "" && n[0] == '.'
  }

  predicate Listed(b: Bundle, n: string) {
    n in b.listing && !Hidden(n) && n in b.dirs
  }

  /** A listing names each entry once, and every directory it has. */
  predicate WellFormed(b: Bundle) {
    && (forall i, j :: 0 <= i < j < |b.listing| ==> b.listing[i] != b.listing[j])
    && (forall n :: n in b.dirs ==> n in b.listing && Sane(b.dirs[n]))
  }

  function EntryAt(fonts: Fonts, n: string): Option<Entry> {
    if n in fonts then Some(fonts[n]) else None
  }

  /** stat() follows links. */
  predicate IsDirectory(e: Option<Entry>) {
    e.Some? && (e.value.Dir? || (e.value.Link? && e.value.toDirectory))
  }

  // --- one directory ---

  /** The files a directory ends with: the bundle's, where no directory is in the way, and what is hidden. */
  function SeedFolder(from: Folder, to: Folder): Folder {
    Folder(
      (map n | n in to.files && Hidden(n) :: to.files[n])
      + (map n | n in from.files && !Hidden(n) && n !in to.subs :: from.files[n]),
      to.subs)
  }

  function SubOf(f: Folder, n: string): Folder {
    if n in f.subs then f.subs[n] else NO_FILES
  }

  function Decimal(n: nat): string {
    if n < 10 then [(n + '0' as int) as char] else Decimal(n / 10) + [(n % 10 + '0' as int) as char]
  }

  /** `2x`, `3x`, up to the scale the binary was built with. */
  function Tiers(scale: nat): seq<string>
    decreases scale
  {
    if scale < 2 then [] else Tiers(scale - 1) + [Decimal(scale) + "x"]
  }

  /** A family's subdirectories with the named tiers of the bundle seeded. */
  function TierSubs(from: Folder, to: Folder, names: seq<string>): map<string, Folder> {
    to.subs + (map n | n in from.subs && n in names :: SeedFolder(from.subs[n], SubOf(to, n)))
  }

  /** A family's files and then each tier the bundle carries. */
  function Seeded(from: Folder, to: Folder, tiers: seq<string>): Folder {
    Folder(SeedFolder(from, to).files, TierSubs(from, to, tiers))
  }

  /** What seeding leaves at `fonts/<family>`; `clones` says whether its clonefile works. */
  function SeedFamily(from: Folder, to: Option<Entry>, clones: bool, tiers: seq<string>): Entry {
    match to
    case Some(Dir(f)) => Dir(Seeded(from, f, tiers))
    case Some(StrayFile(b)) => StrayFile(b)
    case _ => Dir(if clones then from else Seeded(from, NO_FILES, tiers))
  }

  /** Listed in the ledger and not there: only the owner could have done that. */
  predicate OwnerDeleted(card: Card, n: string) {
    !IsDirectory(EntryAt(card.fonts, n)) && n in Ledger(card)
  }

  function Ledger(card: Card): seq<string> {
    match card.ledger
    case None => []
    case Some(text) => Parse(text)
  }

  function SeedNext(card: Card, b: Bundle, clones: Clones, tiers: seq<string>, fonts: Fonts, n: string): Fonts {
    if !Listed(b, n) || (!IsDirectory(EntryAt(fonts, n)) && n in Ledger(card)) then fonts
    else fonts[n := SeedFamily(b.dirs[n], EntryAt(fonts, n), clones(n), tiers)]
  }

  /** The families of the bundle, in listing order. */
  function Families(b: Bundle, n: nat): seq<string>
    requires n <= |b.listing|
  {
    if n == 0 then []
    else Families(b, n - 1) + if Listed(b, b.listing[n - 1]) then [b.listing[n - 1]] else []
  }

  function SeedUpTo(card: Card, b: Bundle, clones: Clones, tiers: seq<string>, n: nat): Fonts
    requires n <= |b.listing|
  {
    if n == 0 then card.fonts
    else SeedNext(card, b, clones, tiers, SeedUpTo(card, b, clones, tiers, n - 1), b.listing[n - 1])
  }

  /** One launch. Without SeedFonts/ the pass does nothing. */
  function Pass(card: Card, bundle: Option<Bundle>, clones: Clones, scale: nat): Card {
    match bundle
    case None => card
    case Some(b) =>
      Card(SeedUpTo(card, b, clones, Tiers(scale), |b.listing|), Some(Print(Families(b, |b.listing|))))
  }

  // --- the code that does it ---

  const CHUNK := 65536

  /** Size, then bytes, a chunk at a time. */
  method FilesIdentical(a: Option<string>, b: Option<string>) returns (same: bool)
    ensures same <==> a.Some? && b.Some? && a.value == b.value
  {
    if a.None? || b.None? {
      return false;
    }
    var x, y := a.value, b.value;
    if |x| != |y| {
      return false;
    }
    var at := 0;
    while at < |x|
      invariant 0 <= at <= |x| && x[..at] == y[..at]
    {
      var end := if at + CHUNK < |x| then at + CHUNK else |x|;
      if x[at..end] != y[at..end] {
        assert x != y;
        return false;
      }
      assert x[..end] == x[..at] + x[at..end] && y[..end] == y[..at] + y[at..end];
      at := end;
    }
    assert x == x[..at] && y == y[..at];
    return true;
  }

  function FileAt(files: map<string, string>, n: string): Option<string> {
    if n in files then Some(files[n]) else None
  }

  /** A bundle file is copied unless it is hidden or a directory stands in its way. */
  predicate Lands(from: Folder, to: Folder, n: string) {
    n in from.files && !Hidden(n) && n !in to.subs
  }

  /** Copies what differs; directories are left alone. */
  method CopyFiles(from: Folder, to: Folder) returns (files: map<string, string>)
    ensures forall n :: n in files <==> n in to.files || Lands(from, to, n)
    ensures forall n :: n in files ==> files[n] == if Lands(from, to, n) then from.files[n] else to.files[n]
  {
    files := to.files;
    var todo := from.files.Keys;
    while todo != {}
      invariant todo <= from.files.Keys
      invariant forall n :: n in files <==> n in to.files || (n !in todo && Lands(from, to, n))
      invariant forall n :: n in files ==>
        files[n] == if n !in todo && Lands(from, to, n) then from.files[n] else to.files[n]
    {
      var n :| n in todo;
      todo := todo - {n};
      if Hidden(n) || n in to.subs {
        continue;
      }
      var same := FilesIdentical(Some(from.files[n]), FileAt(files, n));
      if same {
        continue;
      }
      files := files[n := from.files[n]];
    }
  }

  /** Unlinks the files the bundle does not carry. */
  method PruneFiles(from: Folder, copied: map<string, string>) returns (files: map<string, string>)
    ensures files == map n | n in copied && (Hidden(n) || n in from.files) :: copied[n]
  {
    files := copied;
    var have := files.Keys;
    while have != {}
      invariant have <= copied.Keys
      invariant forall n :: n in files <==> n in copied && (n in have || Hidden(n) || n in from.files)
      invariant forall n :: n in files ==> files[n] == copied[n]
    {
      var n :| n in have;
      have := have - {n};
      if Hidden(n) || n in from.files {
        continue;
      }
      files := files - {n};
    }
  }

  method SeedOneFontDirectory(from: Folder, to: Folder) returns (r: Folder)
    requires Apart(to)
    ensures r == SeedFolder(from, to)
  {
    var copied := CopyFiles(from, to);
    var files := PruneFiles(from, copied);
    r := Folder(files, to.subs);
    assert r.files == SeedFolder(from, to).files;
  }

  lemma TierAdded(from: Folder, to: Folder, names: seq<string>, t: string)
    ensures t !in from.subs ==> TierSubs(from, to, names + [t]) == TierSubs(from, to, names)
    ensures t in from.subs ==>
      TierSubs(from, to, names + [t]) == TierSubs(from, to, names)[t := SeedFolder(from.subs[t], SubOf(to, t))]
  {
    hide SeedFolder, SubOf;
    assert forall n :: n in names + [t] <==> n in names || n == t;
  }

  /** The tier as it stands when its turn comes seeds to the same files as the one that was there first. */
  lemma TierAgain(from: Folder, to: Folder, names: seq<string>, t: string)
    requires t in from.subs && (forall n :: n in to.subs ==> Apart(to.subs[n]))
    ensures var there := if t in TierSubs(from, to, names) then TierSubs(from, to, names)[t] else NO_FILES;
      Apart(there) && SeedFolder(from.subs[t], there) == SeedFolder(from.subs[t], SubOf(to, t))
  {
    SeedFolderTwice(from.subs[t], SubOf(to, t));
  }

  method SeedTiers(from: Folder, to: Folder, tiers: seq<string>) returns (subs: map<string, Folder>)
    requires forall n :: n in to.subs ==> Apart(to.subs[n])
    ensures subs == TierSubs(from, to, tiers)
  {
    subs := to.subs;
    assert TierSubs(from, to, []) == to.subs;
    for i := 0 to |tiers|
      invariant subs == TierSubs(from, to, tiers[..i])
    {
      var t := tiers[i];
      assert tiers[..i + 1] == tiers[..i] + [t];
      TierAdded(from, to, tiers[..i], t);
      if t in from.subs {
        TierAgain(from, to, tiers[..i], t);
        var sub := SeedOneFontDirectory(from.subs[t], if t in subs then subs[t] else NO_FILES);
        subs := subs[t := sub];
      }
    }
    assert tiers[..|tiers|] == tiers;
  }

  /** Seeding what was just seeded changes nothing. */
  lemma SeedFolderTwice(from: Folder, to: Folder)
    ensures SeedFolder(from, SeedFolder(from, to)) == SeedFolder(from, to)
    ensures Apart(to) ==> Apart(SeedFolder(from, to))
  {
    var once := SeedFolder(from, to);
    assert SeedFolder(from, once).files == once.files;
  }

  class FontSeeder {
    var fonts: Fonts
    var ledger: Option<string>

    ghost function Model(): Card
      reads this
    {
      Card(fonts, ledger)
    }

    /** Removes a leftover link; true when the family was cloned whole. */
    method CloneFontDirectory(from: Folder, n: string, clones: bool) returns (cloned: bool)
      modifies this`fonts
      ensures cloned <==> clones && !(n in old(fonts) && !old(fonts)[n].Link?)
      ensures fonts ==
        if cloned then old(fonts)[n := Dir(from)]
        else if n in old(fonts) && old(fonts)[n].Link? then old(fonts) - {n}
        else old(fonts)
    {
      if n in fonts {
        if !fonts[n].Link? {
          return false;
        }
        fonts := fonts - {n};
      }
      if clones {
        fonts := fonts[n := Dir(from)];
      }
      return clones;
    }

    /** The copy and prune that keeps a real directory current, or makes one. */
    method CopyFamily(from: Folder, n: string, tiers: seq<string>)
      requires n in fonts ==> !fonts[n].Link?
      requires n in fonts && fonts[n].Dir? ==> Sane(fonts[n].folder)
      modifies this`fonts
      ensures fonts == old(fonts)[n := SeedFamily(from, EntryAt(old(fonts), n), false, tiers)]
    {
      if n in fonts && fonts[n].StrayFile? {
        return;
      }
      var to := if n in fonts then fonts[n].folder else NO_FILES;
      var top := SeedOneFontDirectory(from, to);
      var subs := SeedTiers(from, to, tiers);
      fonts := fonts[n := Dir(Folder(top.files, subs))];
    }

    method SeedBundledFontFamilies(bundle: Option<Bundle>, clones: Clones, scale: nat)
      requires bundle.Some? ==> WellFormed(bundle.value)
      requires SaneFonts(fonts)
      modifies this
      ensures Model() == Pass(old(Model()), bundle, clones, scale)
    {
      hide SeedFamily, Print, Parse, Tiers;
      if bundle == None {
        return;
      }
      var b, tiers := bundle.value, Tiers(scale);
      var names := ReadSeedLedger(ledger);
      assert names == Ledger(old(Model()));
      var seededNow := [];
      for i := 0 to |b.listing|
        invariant ledger == old(ledger)
        invariant fonts == SeedUpTo(old(Model()), b, clones, tiers, i)
        invariant seededNow == Families(b, i)
        invariant forall j :: i <= j < |b.listing| ==>
          EntryAt(fonts, b.listing[j]) == EntryAt(old(fonts), b.listing[j])
      {
        var family := b.listing[i];
        if Hidden(family) || family !in b.dirs {
          continue;
        }
        seededNow := seededNow + [family];
        var there := EntryAt(fonts, family);
        if !IsDirectory(there) && family in names {
          continue;
        }
        SeedOne(b.dirs[family], family, clones(family), tiers);
        assert fonts == SeedUpTo(old(Model()), b, clones, tiers, i + 1);
      }
      var text := WriteSeedLedger(seededNow);
      ledger := Some(text);
    }

    method SeedOne(from: Folder, n: string, clones: bool, tiers: seq<string>)
      requires n in fonts && fonts[n].Dir? ==> Sane(fonts[n].folder)
      modifies this`fonts
      ensures fonts == old(fonts)[n := SeedFamily(from, EntryAt(old(fonts), n), clones, tiers)]
    {
      var cloned := CloneFontDirectory(from, n, clones);
      if !cloned {
        CopyFamily(from, n, tiers);
      }
    }
  }
}
