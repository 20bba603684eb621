/** The firmware's serial log on the card: appended, rotated one generation back, armed by a polled
    switch (src/FirmwareLogFile.h). A byte is a char; times are seconds. */
module FirmwareLog {
  import opened Numbers
  import opened Text

  const ROTATE_BYTES := 256 * 1024
  const POLL_SECONDS := 1.0
  const HOST_TAG := "[host] "

  /** The open stream: on the file at the log's path, or on one the owner has deleted meanwhile. */
  datatype Handle = Closed | Linked | Orphan(content: string)

  datatype Log = Log(
    previous: Option<string>, current: Option<string>, handle: Handle, bytes: nat,
    provider: bool, lastPoll: real, lastAnswer: bool)

  function Content(f: Option<string>): string {
    match f
    case None => ""
    case Some(s) => s
  }

  /** What a reader finds on the card: the generation before, then the current file. */
  function Kept(s: Log): string {
    Content(s.previous) + Content(s.current)
  }

  function CloseFile(s: Log): Log {
    if s.handle == Closed then s else s.(handle := Closed, bytes := 0)
  }

  /** fopen in append mode: the file appears when it was not there, and the counter starts at its end. */
  function OpenFile(s: Log): Log {
    if s.handle != Closed then s
    else s.(current := Some(Content(s.current)), handle := Linked, bytes := |Content(s.current)|)
  }

  function EnsureLive(s: Log): Log {
    if s.handle != Closed && s.current == None then CloseFile(s) else s
  }

  /** The handle is closed, the generation before goes, and the current file takes its name. */
  function Rotate(s: Log): Log {
    CloseFile(s).(previous := s.current, current := None)
  }

  function Append(s: Log, data: string): Log {
    var o := OpenFile(s);
    var w :=
      if o.handle.Orphan? then o.(handle := Orphan(o.handle.content + data))
      else o.(current := Some(Content(o.current) + data));
    var n := w.(bytes := o.bytes + |data|);
    if n.bytes >= ROTATE_BYTES then Rotate(n) else n
  }

  /** The armed answer, polled at most once a second; `answer` is what the switch says now. */
  function Poll(s: Log, forced: bool, now: real, answer: bool): (Log, bool) {
    if forced then (s, true)
    else if !s.provider then (s, false)
    else
      var p := if now - s.lastPoll >= POLL_SECONDS then s.(lastPoll := now, lastAnswer := answer) else s;
      (p, p.lastAnswer)
  }

  function Write(s: Log, forced: bool, data: string, now: real, answer: bool): Log {
    if data == "" then s
    else
      var (p, armed) := Poll(s, forced, now, answer);
      if armed then Append(EnsureLive(p), data) else CloseFile(p)
  }

  function HostLine(s: Log, forced: bool, text: string, now: real, answer: bool): Log {
    var (p, armed) := Poll(s, forced, now, answer);
    if armed then Append(Append(Append(EnsureLive(p), HOST_TAG), text), "\n") else CloseFile(p)
  }

  /** A new switch, or none, and no remembered poll. */
  function Installed(s: Log, on: bool): Log {
    s.(provider := on, lastPoll := 0.0)
  }

  /** The object: a stream and a counter over the card's directory. */
  class FirmwareLogFile {
    const forced: bool
    // The card's directory.
    var previous: Option<string>
    var current: Option<string>
    // The stream and what the source keeps beside it.
    var handle: Handle
    var bytes: nat
    var provider: bool
    var lastPoll: real
    var lastAnswer: bool

    ghost function Model(): Log
      reads this
    {
      Log(previous, current, handle, bytes, provider, lastPoll, lastAnswer)
    }

    constructor (force: bool, prev: Option<string>, cur: Option<string>)
      ensures forced == force && Model() == Log(prev, cur, Closed, 0, false, 0.0, false)
    {
      forced := force;
      previous, current, handle, bytes := prev, cur, Closed, 0;
      provider, lastPoll, lastAnswer := false, 0.0, false;
    }

    method CloseFileLocked()
      modifies this
      ensures Model() == CloseFile(old(Model()))
    {
      if handle == Closed {
        return;
      }
      handle, bytes := Closed, 0;
    }

    method ArmedLocked(now: real, answer: bool) returns (armed: bool)
      modifies this
      ensures Model() == Poll(old(Model()), forced, now, answer).0
      ensures armed == Poll(old(Model()), forced, now, answer).1
    {
      if forced {
        return true;
      }
      if !provider {
        return false;
      }
      if now - lastPoll >= POLL_SECONDS {
        lastPoll, lastAnswer := now, answer;
      }
      return lastAnswer;
    }

    method RotateLocked()
      modifies this
      ensures Model() == Rotate(old(Model()))
    {
      CloseFileLocked();
      previous := current;
      current := None;
    }

    method OpenLocked()
      modifies this
      ensures Model() == OpenFile(old(Model()))
    {
      if handle != Closed {
        return;
      }
      current := Some(Content(current));
      handle, bytes := Linked, |Content(current)|;
    }

    method EnsureLiveLocked()
      modifies this
      ensures Model() == EnsureLive(old(Model()))
    {
      if handle == Closed {
        return;
      }
      if current == None {
        CloseFileLocked();
      }
    }

    method AppendLocked(data: string)
      modifies this
      ensures Model() == Append(old(Model()), data)
    {
      OpenLocked();
      if handle.Orphan? {
        handle := Orphan(handle.content + data);
      } else {
        current := Some(Content(current) + data);
      }
      bytes := bytes + |data|;
      if bytes >= ROTATE_BYTES {
        RotateLocked();
      }
    }

    method SetEnabledProvider(installed: bool)
      modifies this
      ensures Model() == Installed(old(Model()), installed)
    {
      provider, lastPoll := installed, 0.0;
    }

    method Armed(now: real, answer: bool) returns (armed: bool)
      modifies this
      ensures Model() == Poll(old(Model()), forced, now, answer).0
      ensures armed == Poll(old(Model()), forced, now, answer).1
    {
      armed := ArmedLocked(now, answer);
    }

    method WriteBytes(data: string, now: real, answer: bool)
      modifies this
      ensures Model() == Write(old(Model()), forced, data, now, answer)
    {
      if data == "" {
        return;
      }
      var armed := ArmedLocked(now, answer);
      if !armed {
        CloseFileLocked();
        return;
      }
      EnsureLiveLocked();
      AppendLocked(data);
    }

    method WriteHostLine(text: string, now: real, answer: bool)
      modifies this
      ensures Model() == HostLine(old(Model()), forced, text, now, answer)
    {
      var armed := ArmedLocked(now, answer);
      if !armed {
        CloseFileLocked();
        return;
      }
      EnsureLiveLocked();
      AppendLocked(HOST_TAG);
      AppendLocked(text);
      AppendLocked("\n");
    }
  }

  // --- runs ---

  datatype Event =
    | Serial(data: string, now: real, answer: bool)
    | Host(text: string, now: real, answer: bool)
    | Query(now: real, answer: bool)
    | Install(on: bool)
    | OwnerDeletesCurrent
    | OwnerDeletesPrevious

  predicate Deletes(e: Event) {
    e.OwnerDeletesCurrent? || e.OwnerDeletesPrevious?
  }

  function Step(s: Log, forced: bool, e: Event): Log {
    match e
    case Serial(data, now, answer) => Write(s, forced, data, now, answer)
    case Host(text, now, answer) => HostLine(s, forced, text, now, answer)
    case Query(now, answer) => Poll(s, forced, now, answer).0
    case Install(on) => Installed(s, on)
    case OwnerDeletesCurrent =>
      s.(current := None, handle := if s.handle == Linked then Orphan(Content(s.current)) else s.handle)
    case OwnerDeletesPrevious => s.(previous := None)
  }

  /** What an event logs: its text when the switch is on, nothing otherwise. */
  function Logged(s: Log, forced: bool, e: Event): string {
    match e
    case Serial(data, now, answer) => if Poll(s, forced, now, answer).1 then data else ""
    case Host(text, now, answer) => if Poll(s, forced, now, answer).1 then HOST_TAG + text + "\n" else ""
    case _ => ""
  }

  function After(s: Log, forced: bool, events: seq<Event>): Log
    decreases |events|
  {
    if events == [] then s else After(Step(s, forced, events[0]), forced, events[1..])
  }

  function Stream(s: Log, forced: bool, events: seq<Event>): string
    decreases |events|
  {
    if events == [] then ""
    else Logged(s, forced, events[0]) + Stream(Step(s, forced, events[0]), forced, events[1..])
  }

  /** The bytes logged since the owner last deleted something. */
  function SinceDeletion(s: Log, forced: bool, events: seq<Event>, since: nat): nat
    decreases |events|
  {
    if events == [] then since
    else SinceDeletion(Step(s, forced, events[0]), forced, events[1..],
                       if Deletes(events[0]) then 0 else since + |Logged(s, forced, events[0])|)
  }

  // --- what is kept ---

  predicate Suffix(a: string, b: string) {
    |a| <= |b| && b[|b| - |a|..] == a
  }

  /** The counter is the length of the open file, which is the one at the log's path unless deleted. */
  predicate Counted(s: Log) {
    match s.handle
    case Closed => s.bytes == 0
    case Linked => s.current.Some? && s.bytes == |s.current.value|
    case Orphan(c) => s.current == None && s.bytes == |c|
  }

  /** Both generations end the stream, and nothing is lost before a full generation is behind. */
  predicate Whole(s: Log, all: string) {
    && Suffix(Kept(s), all)
    && (|Kept(s)| == |all| || |Content(s.previous)| >= ROTATE_BYTES)
  }

  /** With deletions: the current file ends the stream, and reaches back to the last deletion unless
      a generation written since then does. */
  predicate Recent(s: Log, all: string, since: nat) {
    && since <= |all|
    && Suffix(Content(s.current), all)
    && (since <= |Content(s.current)|
        || (Suffix(Kept(s), all) && (since <= |Kept(s)| || |Content(s.previous)| >= ROTATE_BYTES)))
  }

  lemma SuffixGrows(a: string, b: string, d: string)
    requires Suffix(a, b)
    ensures Suffix(a + d, b + d)
  {
    assert (b + d)[|b| - |a|..] == b[|b| - |a|..] + d;
  }

  lemma SuffixOfSuffix(p: string, c: string, all: string)
    requires Suffix(p + c, all)
    ensures Suffix(c, all)
  {
    assert (p + c)[|p|..] == c;
    assert all[|all| - |c|..] == all[|all| - |p + c|..][|p|..];
  }

  /** An append lengthens the current file, or moves it whole to the generation before. */
  lemma AppendShape(s: Log, data: string)
    requires Counted(s) && !s.handle.Orphan?
    ensures var s', grown := Append(s, data), Content(s.current) + data;
      && Counted(s') && !s'.handle.Orphan?
      && (if |grown| < ROTATE_BYTES then s'.previous == s.previous && s'.current == Some(grown)
          else s'.previous == Some(grown) && s'.current == None)
  {
  }

  lemma AppendKeepsWhole(s: Log, data: string, all: string)
    requires Counted(s) && !s.handle.Orphan? && Whole(s, all)
    ensures Whole(Append(s, data), all + data)
  {
    hide Append, Suffix;
    AppendShape(s, data);
    var p, c := Content(s.previous), Content(s.current);
    GrownSuffix(p, c, data, all);
    assert c + data + "" == c + data;
  }

  lemma GrownSuffix(p: string, c: string, d: string, all: string)
    requires Suffix(p + c, all)
    ensures Suffix(p + (c + d), all + d) && Suffix(c + d, all + d)
  {
    hide Suffix;
    SuffixGrows(p + c, all, d);
    assert p + c + d == p + (c + d);
    SuffixOfSuffix(p, c + d, all + d);
  }

  lemma AppendKeepsRecent(s: Log, data: string, all: string, since: nat)
    requires Counted(s) && !s.handle.Orphan? && Recent(s, all, since)
    ensures Recent(Append(s, data), all + data, since + |data|)
  {
    hide Append, Suffix;
    AppendShape(s, data);
    var p, c := Content(s.previous), Content(s.current);
    SuffixGrows(c, all, data);
    EmptySuffix(all + data);
    assert c + data + "" == c + data;
    if Suffix(p + c, all) {
      GrownSuffix(p, c, data, all);
    }
  }

  lemma EmptySuffix(all: string)
    ensures Suffix("", all)
  {
  }

  /** One append on a live or closed stream keeps everything and stays under a generation. */
  lemma AppendKeeps(s: Log, data: string, all: string, since: nat)
    requires Counted(s) && !s.handle.Orphan?
    ensures var s' := Append(s, data);
      && Counted(s') && !s'.handle.Orphan? && |Content(s'.current)| < ROTATE_BYTES
      && (Whole(s, all) ==> Whole(s', all + data))
      && (Recent(s, all, since) ==> Recent(s', all + data, since + |data|))
  {
    hide Append;
    AppendShape(s, data);
    if Whole(s, all) {
      AppendKeepsWhole(s, data, all);
    }
    if Recent(s, all, since) {
      AppendKeepsRecent(s, data, all, since);
    }
  }

  /** Polling and closing touch no file. */
  lemma GateKeeps(s: Log, forced: bool, now: real, answer: bool)
    requires Counted(s)
    ensures var p := Poll(s, forced, now, answer).0;
      && Counted(CloseFile(p)) && Counted(EnsureLive(p)) && !EnsureLive(p).handle.Orphan?
      && p.previous == CloseFile(p).previous == EnsureLive(p).previous == s.previous
      && p.current == CloseFile(p).current == EnsureLive(p).current == s.current
  {
  }

  /** What one event keeps of the stream `all`, of which `since` bytes came after the last deletion. */
  ghost predicate Keeps(s: Log, s': Log, out: string, deleted: bool, all: string, since: nat) {
    && Counted(s')
    && (!deleted && !s.handle.Orphan? ==> !s'.handle.Orphan?)
    && (out != "" ==> |Content(s'.current)| < ROTATE_BYTES)
    && (!deleted && Whole(s, all) ==> Whole(s', all + out))
    && (Recent(s, all, since) ==> Recent(s', all + out, if deleted then 0 else since + |out|))
  }

  lemma HostKeeps(s: Log, text: string, all: string, since: nat)
    requires Counted(s) && !s.handle.Orphan?
    ensures Keeps(s, Append(Append(Append(s, HOST_TAG), text), "\n"), HOST_TAG + text + "\n", false, all, since)
  {
    hide Append, Whole, Recent;
    var a := Append(s, HOST_TAG);
    var b := Append(a, text);
    AppendKeeps(s, HOST_TAG, all, since);
    AppendKeeps(a, text, all + HOST_TAG, since + |HOST_TAG|);
    AppendKeeps(b, "\n", all + HOST_TAG + text, since + |HOST_TAG| + |text|);
    assert all + HOST_TAG + text + "\n" == all + (HOST_TAG + text + "\n");
  }

  /** What is kept depends on the two files only. */
  lemma SameFiles(s: Log, t: Log, all: string, since: nat)
    requires s.previous == t.previous && s.current == t.current
    ensures Whole(s, all) == Whole(t, all) && Recent(s, all, since) == Recent(t, all, since)
  {
  }

  lemma LineKeeps(s: Log, forced: bool, e: Event, all: string, since: nat)
    requires Counted(s) && (e.Serial? || e.Host?)
    ensures Keeps(s, Step(s, forced, e), Logged(s, forced, e), false, all, since)
  {
    hide Append, Whole, Recent;
    var p := Poll(s, forced, e.now, e.answer).0;
    GateKeeps(s, forced, e.now, e.answer);
    SameFiles(s, CloseFile(p), all, since);
    SameFiles(s, EnsureLive(p), all, since);
    assert all + "" == all;
    if e.Serial? {
      AppendKeeps(EnsureLive(p), e.data, all, since);
    } else {
      HostKeeps(EnsureLive(p), e.text, all, since);
    }
  }

  lemma EventKeeps(s: Log, forced: bool, e: Event, all: string, since: nat)
    requires Counted(s)
    ensures Keeps(s, Step(s, forced, e), Logged(s, forced, e), Deletes(e), all, since)
  {
    if e.Serial? || e.Host? {
      LineKeeps(s, forced, e, all, since);
    } else if e.Query? {
      assert all + "" == all;
      SameFiles(s, Poll(s, forced, e.now, e.answer).0, all, since);
    } else {
      assert all + "" == all;
    }
  }

  /** After a switch is installed the next poll asks it, whatever was remembered, if and only if the
      monotonic clock stands at one second or more. */
  lemma InstallForcesPollIff(s: Log, now: real)
    ensures (forall answer :: Poll(Installed(s, true), false, now, answer).1 == answer) <==> now >= POLL_SECONDS
  {
    if now < POLL_SECONDS {
      assert Poll(Installed(s, true), false, now, !s.lastAnswer).1 == s.lastAnswer;
    }
  }

  predicate NoDeletion(events: seq<Event>) {
    forall i :: 0 <= i < |events| ==> !Deletes(events[i])
  }

  lemma {:induction false} RunKeeps(s: Log, forced: bool, events: seq<Event>, all: string, since: nat)
    requires Counted(s)
    ensures var s', out := After(s, forced, events), Stream(s, forced, events);
      && Counted(s')
      && (NoDeletion(events) && !s.handle.Orphan? ==> !s'.handle.Orphan?)
      && ((out != "" || |Content(s.current)| < ROTATE_BYTES) ==> |Content(s'.current)| < ROTATE_BYTES)
      && (NoDeletion(events) && Whole(s, all) ==> Whole(s', all + out))
      && (Recent(s, all, since) ==> Recent(s', all + out, SinceDeletion(s, forced, events, since)))
    decreases |events|
  {
    hide Step, Logged, Recent, Whole, Counted;
    if events == [] {
      assert all + "" == all;
    } else {
      var e := events[0];
      var s1, out := Step(s, forced, e), Logged(s, forced, e);
      EventKeeps(s, forced, e, all, since);
      SmallStaysSmall(s, forced, e);
      RunKeeps(s1, forced, events[1..], all + out, if Deletes(e) then 0 else since + |out|);
      assert all + out + Stream(s1, forced, events[1..]) == all + (out + Stream(s1, forced, events[1..]));
    }
  }

  lemma SmallStaysSmall(s: Log, forced: bool, e: Event)
    requires Counted(s)
    ensures (Logged(s, forced, e) != "" || |Content(s.current)| < ROTATE_BYTES)
      ==> |Content(Step(s, forced, e).current)| < ROTATE_BYTES
  {
    EventKeeps(s, forced, e, Kept(s), 0);
    if e.Serial? {
      GateKeeps(s, forced, e.now, e.answer);
    } else if e.Host? {
      GateKeeps(s, forced, e.now, e.answer);
    }
  }

  /** The first `n` bytes a reader would want: the end of the stream. */
  function Tail(all: string, n: nat): string
    requires n <= |all|
  {
    all[|all| - n..]
  }

  /** With no owner deletion, the two generations together end the stream of the initial contents and
      everything logged, and hold at least its last 256 KiB; the current file stays under that between
      appends, and the counter is the open file's length. */
  lemma NothingRecentIsLost(prev: Option<string>, cur: Option<string>, forced: bool, events: seq<Event>)
    requires NoDeletion(events)
    ensures var start := Log(prev, cur, Closed, 0, false, 0.0, false);
      var s, out := After(start, forced, events), Stream(start, forced, events);
      var all := Kept(start) + out;
      && Suffix(Kept(s), all) && |Kept(s)| >= Least(|all|, 262144)
      && (out != "" ==> |Content(s.current)| < 262144)
      && (s.handle == Linked ==> s.current.Some? && s.bytes == |s.current.value|)
      && !s.handle.Orphan?
  {
    var start := Log(prev, cur, Closed, 0, false, 0.0, false);
    RunKeeps(start, forced, events, Kept(start), 0);
  }

  lemma TailOfSuffix(kept: string, all: string, n: nat)
    requires Suffix(kept, all) && n <= |kept|
    ensures Tail(all, n) == Tail(kept, n)
  {
    assert all[|all| - n..] == all[|all| - |kept|..][|kept| - n..];
  }

  lemma SuffixTrans(a: string, p: string, c: string)
    requires Suffix(a, c)
    ensures Suffix(a, p + c)
  {
    assert (p + c)[|p + c| - |a|..] == c[|c| - |a|..];
  }

  lemma RecentTail(s: Log, all: string, since: nat)
    requires Recent(s, all, since)
    ensures var n := Least(since, ROTATE_BYTES); n <= |all| && Suffix(Tail(all, n), Kept(s))
  {
    var n, p, c := Least(since, ROTATE_BYTES), Content(s.previous), Content(s.current);
    if n <= |c| {
      TailOfSuffix(c, all, n);
      SuffixTrans(Tail(c, n), p, c);
    } else {
      TailOfSuffix(p + c, all, n);
    }
  }

  /** Whatever the owner deletes and whenever, what was logged since the last deletion is still there,
      up to its last 256 KiB, at the end of the two generations. */
  lemma DeletionLosesNothingNew(prev: Option<string>, cur: Option<string>, forced: bool, events: seq<Event>)
    ensures var start := Log(prev, cur, Closed, 0, false, 0.0, false);
      var s, all := After(start, forced, events), Kept(start) + Stream(start, forced, events);
      var n := Least(SinceDeletion(start, forced, events, |Kept(start)|), 262144);
      n <= |all| && Suffix(Tail(all, n), Kept(s))
  {
    hide Step, Logged, After, Stream, SinceDeletion;
    var start := Log(prev, cur, Closed, 0, false, 0.0, false);
    SuffixOfSuffix(Content(prev), Content(cur), Kept(start));
    RunKeeps(start, forced, events, Kept(start), |Kept(start)|);
    RecentTail(After(start, forced, events), Kept(start) + Stream(start, forced, events),
               SinceDeletion(start, forced, events, |Kept(start)|));
  }
}
