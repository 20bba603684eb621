/** Moving font families from the hidden root to the visible one (ios/CrossPointFsPrep.cpp). */
module FontMigration {
  import opened Text
  import opened FontSeed

  /** Names the firmware's own scan skips. */
  predicate Skipped(n: string) {
    n != "" && (n[0] == '.' || n[0] == '_')
  }

  /** A family directory whose name is free at the destination. */
  predicate Moves(from: Fonts, to: Fonts, n: string) {
    n in from && !Skipped(n) && IsDirectory(EntryAt(from, n)) && n !in to
  }

  /** One rename per family; the emptied root is removed. */
  method MigrateFontFamilies(from: Fonts, to: Fonts) returns (from': Fonts, to': Fonts, removed: bool)
    ensures from' == map n | n in from && !Moves(from, to, n) :: from[n]
    ensures to' == to + (map n | n in from && Moves(from, to, n) :: from[n])
    ensures removed <==> from' == map[]
  {
    hide IsDirectory, Skipped;
    from', to' := from, to;
    var names := set n | n in from && !Skipped(n);
    while names != {}
      invariant names <= from.Keys
      invariant forall n :: n in from && !Skipped(n) && n !in names ==> (n in from' <==> !Moves(from, to, n))
      invariant forall n :: n in from && (Skipped(n) || n in names) ==> n in from'
      invariant forall n :: n in from' ==> n in from && from'[n] == from[n]
      invariant forall n :: n in to' <==> n in to || (n in from && n !in names && Moves(from, to, n))
      invariant forall n :: n in to' ==> to'[n] == if n in to then to[n] else from[n]
    {
      var n :| n in names;
      names := names - {n};
      if !IsDirectory(EntryAt(from', n)) || n in to' {
        continue;
      }
      to' := to'[n := from'[n]];
      from' := from' - {n};
    }
    removed := from' == map[];
  }

  /** What the firmware reads for a family: the hidden root wins over the visible one. */
  function Family(hidden: Fonts, visible: Fonts, n: string): Option<Entry> {
    if n != "" && n[0] in "._" then None
    else if IsDirectory(EntryAt(hidden, n)) then EntryAt(hidden, n)
    else if IsDirectory(EntryAt(visible, n)) then EntryAt(visible, n)
    else None
  }

  /** The migration changes no family the firmware reads, loses no entry, and leaves a family hidden only
      where its name was taken. */
  lemma MigrationKeepsFamilies(hidden: Fonts, visible: Fonts, hidden': Fonts, visible': Fonts, n: string)
    requires hidden' == map m | m in hidden && !Moves(hidden, visible, m) :: hidden[m]
    requires visible' == visible + (map m | m in hidden && Moves(hidden, visible, m) :: hidden[m])
    ensures Family(hidden', visible', n) == Family(hidden, visible, n)
    ensures n in visible ==> EntryAt(visible', n) == EntryAt(visible, n)
    ensures n in hidden ==> EntryAt(hidden', n) == Some(hidden[n]) || (n !in visible && EntryAt(visible', n) == Some(hidden[n]))
    ensures n in hidden' && (n == "" || n[0] !in "._") && IsDirectory(EntryAt(hidden', n)) ==> n in visible
    ensures n != "" && n[0] in "._" ==>
      EntryAt(hidden', n) == EntryAt(hidden, n) && EntryAt(visible', n) == EntryAt(visible, n)
  {
    assert n in hidden' <==> n in hidden && !Moves(hidden, visible, n);
    assert n in visible' <==> n in visible || (n in hidden && Moves(hidden, visible, n));
  }
}
