/** What gets logged, told from the events alone: the switch is asked at most once a second, and obeyed
    within one (src/FirmwareLogFile.h). */
module FirmwareLogSwitch {
  import opened FirmwareLog
  import opened Text

  predicate Timed(e: Event) {
    e.Serial? || e.Host? || e.Query?
  }

  /** The text an event offers. */
  function Offered(e: Event): string {
    match e
    case Serial(data, _, _) => data
    case Host(text, _, _) => "[host] " + text + "\n"
    case _ => ""
  }

  function AllOffered(events: seq<Event>): string {
    if events == [] then "" else Offered(events[0]) + AllOffered(events[1..])
  }

  /** The texts offered from time `t` on. */
  function OfferedFrom(events: seq<Event>, t: real): string {
    if events == [] then ""
    else (if Timed(events[0]) && events[0].now >= t then Offered(events[0]) else "") + OfferedFrom(events[1..], t)
  }

  /** What a run logs from time `t` on. */
  function StreamFrom(s: Log, forced: bool, events: seq<Event>, t: real): string
    decreases |events|
  {
    if events == [] then ""
    else
      (if Timed(events[0]) && events[0].now >= t then Logged(s, forced, events[0]) else "")
      + StreamFrom(Step(s, forced, events[0]), forced, events[1..], t)
  }

  /** From time `t` on the switch says `on`, whenever it is asked. */
  predicate Says(events: seq<Event>, t: real, on: bool) {
    forall i :: 0 <= i < |events| && Timed(events[i]) && events[i].now >= t ==> events[i].answer == on
  }

  predicate StaysInstalled(events: seq<Event>) {
    forall i :: 0 <= i < |events| && events[i].Install? ==> events[i].on
  }

  predicate NeverInstalled(events: seq<Event>) {
    forall i :: 0 <= i < |events| && events[i].Install? ==> !events[i].on
  }

  /** What is remembered from after time `t` is what the switch says from then on. */
  predicate UpToDate(s: Log, t: real, on: bool) {
    s.lastPoll > t ==> s.lastAnswer == on
  }

  lemma StepObeys(s: Log, e: Event, t: real, on: bool)
    requires UpToDate(s, t, on) && t >= 0.0
    requires Timed(e) && e.now >= t ==> e.answer == on
    ensures UpToDate(Step(s, false, e), t, on)
    ensures Timed(e) && e.now >= t + 1.0 ==>
      Logged(s, false, e) == if s.provider && on then Offered(e) else ""
    ensures !e.Install? ==> Step(s, false, e).provider == s.provider
  {
    hide Append, EnsureLive;
    if e.Serial? || e.Host? {
      StepPolls(s, e);
    }
  }

  /** The switch as installed, and what is remembered of it. */
  predicate SameSwitch(s: Log, t: Log) {
    s.provider == t.provider && s.lastPoll == t.lastPoll && s.lastAnswer == t.lastAnswer
  }

  lemma AppendKeepsSwitch(s: Log, data: string)
    ensures SameSwitch(Append(s, data), s)
  {
  }

  /** Appending and closing leave the switch and what is remembered of it alone. */
  lemma StepPolls(s: Log, e: Event)
    requires e.Serial? || e.Host?
    ensures var p, s' := Poll(s, false, e.now, e.answer).0, Step(s, false, e);
      if e.Serial? && e.data == "" then s' == s
      else SameSwitch(s', p)
  {
    hide Append;
    var p := EnsureLive(Poll(s, false, e.now, e.answer).0);
    if e.Serial? {
      AppendKeepsSwitch(p, e.data);
    } else {
      AppendKeepsSwitch(p, HOST_TAG);
      AppendKeepsSwitch(Append(p, HOST_TAG), e.text);
      AppendKeepsSwitch(Append(Append(p, HOST_TAG), e.text), "\n");
    }
  }

  lemma TailSays(events: seq<Event>, t: real, on: bool)
    requires events != [] && Says(events, t, on)
    ensures Says(events[1..], t, on)
  {
    forall i | 0 <= i < |events[1..]| && Timed(events[1..][i]) && events[1..][i].now >= t
      ensures events[1..][i].answer == on
    {
      assert events[1..][i] == events[i + 1];
    }
  }

  lemma TailInstalled(events: seq<Event>)
    requires events != []
    ensures StaysInstalled(events) ==> StaysInstalled(events[1..])
    ensures NeverInstalled(events) ==> NeverInstalled(events[1..])
  {
    forall i | 0 <= i < |events[1..]| ensures events[1..][i] == events[i + 1] {
    }
  }

  /** Off from time `t` on: nothing is logged from a second later on, whatever is installed meanwhile. */
  lemma {:induction false} OffIsObeyed(s: Log, events: seq<Event>, t: real)
    requires UpToDate(s, t, false) && t >= 0.0 && Says(events, t, false)
    ensures StreamFrom(s, false, events, t + 1.0) == ""
    decreases |events|
  {
    hide Step, Logged, UpToDate, Says;
    if events != [] {
      StepSays(s, events, t, false);
      TailSays(events, t, false);
      OffIsObeyed(Step(s, false, events[0]), events[1..], t);
    }
  }

  lemma StepSays(s: Log, events: seq<Event>, t: real, on: bool)
    requires events != [] && UpToDate(s, t, on) && t >= 0.0 && Says(events, t, on)
    ensures var e := events[0];
      && UpToDate(Step(s, false, e), t, on)
      && (Timed(e) && e.now >= t + 1.0 ==> Logged(s, false, e) == if s.provider && on then Offered(e) else "")
      && (s.provider && StaysInstalled(events) ==> Step(s, false, e).provider)
  {
    StepObeys(s, events[0], t, on);
  }

  /** On from time `t` on, with a switch installed throughout: everything offered from a second later on
      is logged. */
  lemma {:induction false} OnIsObeyed(s: Log, events: seq<Event>, t: real)
    requires UpToDate(s, t, true) && t >= 0.0 && Says(events, t, true)
    requires s.provider && StaysInstalled(events)
    ensures StreamFrom(s, false, events, t + 1.0) == OfferedFrom(events, t + 1.0)
    decreases |events|
  {
    hide Step, Logged, UpToDate, Says, Offered, StaysInstalled;
    if events != [] {
      StepSays(s, events, t, true);
      TailSays(events, t, true);
      TailInstalled(events);
      OnIsObeyed(Step(s, false, events[0]), events[1..], t);
    }
  }

  /** From a new log with a switch: turned on or off at any time, it is obeyed within a second, whatever it
      said before and whatever the clock does. */
  lemma SwitchIsObeyedWithinASecond(prev: Option<string>, cur: Option<string>, events: seq<Event>,
                                    t: real, on: bool)
    requires t >= 0.0 && Says(events, t, on) && StaysInstalled(events)
    ensures var start := Log(prev, cur, Closed, 0, true, 0.0, false);
      StreamFrom(start, false, events, t + 1.0) == if on then OfferedFrom(events, t + 1.0) else ""
  {
    var start := Log(prev, cur, Closed, 0, true, 0.0, false);
    if on {
      OnIsObeyed(start, events, t);
    } else {
      OffIsObeyed(start, events, t);
    }
  }

  /** Forced on, everything is logged and no switch is asked. */
  lemma {:induction false} ForcedLogsEverything(s: Log, events: seq<Event>)
    ensures Stream(s, true, events) == AllOffered(events)
    decreases |events|
  {
    hide Step;
    if events != [] {
      ForcedLogsEverything(Step(s, true, events[0]), events[1..]);
    }
  }

  /** Neither forced nor installed, nothing is logged. */
  lemma {:induction false} UninstalledLogsNothing(s: Log, events: seq<Event>)
    requires !s.provider && NeverInstalled(events)
    ensures Stream(s, false, events) == ""
    decreases |events|
  {
    hide Append;
    if events != [] {
      TailInstalled(events);
      UninstalledLogsNothing(Step(s, false, events[0]), events[1..]);
    }
  }

  // --- at most once a second ---

  /** All of these come within a second of `x`. */
  predicate Within(events: seq<Event>, x: real) {
    forall i :: 0 <= i < |events| ==> Timed(events[i]) && events[i].now < x + 1.0
  }

  lemma {:induction false} AnswerIsKept(s: Log, events: seq<Event>)
    requires s.provider && Within(events, s.lastPoll)
    ensures Stream(s, false, events) == if s.lastAnswer then AllOffered(events) else ""
    decreases |events|
  {
    hide Append, EnsureLive;
    if events != [] {
      var e := events[0];
      if !e.Query? {
        StepPolls(s, e);
      }
      assert Within(events[1..], s.lastPoll) by {
        forall i | 0 <= i < |events[1..]| ensures events[1..][i] == events[i + 1] {
        }
      }
      AnswerIsKept(Step(s, false, e), events[1..]);
    }
  }

  /** The switch is asked at most once a second: what it says at the first line after an install decides
      every line of the next second, whatever it says meanwhile. */
  lemma AskedOnceASecond(s: Log, first: Event, rest: seq<Event>)
    requires Timed(first) && first.now >= 1.0 && (first.Serial? ==> first.data != "")
    requires Within(rest, first.now)
    ensures Stream(Installed(s, true), false, [first] + rest)
      == if first.answer then Offered(first) + AllOffered(rest) else ""
  {
    hide Append, EnsureLive;
    var start := Installed(s, true);
    assert ([first] + rest)[1..] == rest;
    if !first.Query? {
      StepPolls(start, first);
    }
    AnswerIsKept(Step(start, false, first), rest);
  }

  /** A line that is not logged lets go of the file: off means closed. */
  lemma OffClosesTheFile(s: Log, forced: bool, e: Event)
    requires e.Host? || (e.Serial? && e.data != "")
    requires Logged(s, forced, e) == ""
    ensures Step(s, forced, e).handle == Closed
    ensures Step(s, forced, e).previous == s.previous && Step(s, forced, e).current == s.current
  {
  }
}
