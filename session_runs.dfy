/** Properties of whole runs of the window: any interleaving of starts,
    ticks and cancellations. */
module SessionRuns {
  import opened Base
  import Text
  import opened Sessions
  import SessionProperties

  /** One call into the tracker. */
  datatype Event =
    | StartTimer(now: int, seconds: int, title: string, kind: Kind)
    | StartInput(text: string, now: int, seconds: int, isPomodoro: bool)
    | TickAt(now: int, answer: bool, answeredAt: int)
    | CancelId(id: Id, forceClose: bool)

  function Step(t: Tracker, e: Event): Tracker {
    match e
    case StartTimer(now, seconds, title, kind) => Start(t, now, seconds, title, kind)
    case StartInput(text, now, seconds, isPomodoro) => StartWithInput(t, text, now, seconds, isPomodoro)
    case TickAt(now, answer, answeredAt) => Tick(t, now, answer, answeredAt)
    case CancelId(id, forceClose) => Cancel(t, id, forceClose)
  }

  /** The session whose completion policy the event runs, if any. */
  function HandledBy(t: Tracker, e: Event): Option<Id> {
    if e.TickAt? then Handled(t, e.now) else None
  }

  function Run(t: Tracker, es: seq<Event>): Tracker
    decreases |es|
  {
    if es == [] then t else Run(Step(t, es[0]), es[1..])
  }

  /** The ids whose completion policy ran during the run, in order. */
  function Trace(t: Tracker, es: seq<Event>): seq<Id>
    decreases |es|
  {
    if es == [] then []
    else
      var h := HandledBy(t, es[0]);
      (if h.Some? then [h.value] else []) + Trace(Step(t, es[0]), es[1..])
  }

  predicate NoDuplicates(s: seq<Id>) {
    forall j, k :: 0 <= j < k < |s| ==> s[j] != s[k]
  }

  /** One event keeps the tracker well formed, never lowers the id counter,
      and leaves every session that existed before either removed, unchanged,
      or (on a tick) expired: no old id comes back and no session other than
      a due one changes. */
  lemma StepKeepsOld(t: Tracker, e: Event)
    requires WellFormed(t)
    ensures var r := Step(t, e);
            && WellFormed(r)
            && r.nextId >= t.nextId
            && (forall i :: i in r.sessions && i < t.nextId ==>
                  i in t.sessions &&
                  r.sessions[i] == if e.TickAt? then Expire(t.sessions[i], e.now) else t.sessions[i])
  {
    match e
    case StartTimer(now, seconds, title, kind) =>
      StartKeepsOld(t, now, seconds, title, kind);
    case StartInput(text, now, seconds, isPomodoro) =>
      StartKeepsOld(t, now, seconds, Text.Strip(text), if isPomodoro then FocusPomo else FocusManual);
    case TickAt(now, answer, answeredAt) =>
      TickKeepsOld(t, now, answer, answeredAt);
    case CancelId(id, forceClose) =>
      CancelWellFormed(t, id, forceClose);
  }

  lemma StartKeepsOld(t: Tracker, now: int, seconds: int, title: string, kind: Kind)
    requires WellFormed(t)
    ensures var r := Start(t, now, seconds, title, kind);
            && WellFormed(r)
            && r.nextId >= t.nextId
            && (forall i :: i in r.sessions && i < t.nextId ==> i in t.sessions && r.sessions[i] == t.sessions[i])
  {
    StartWellFormed(t, now, seconds, title, kind);
  }

  lemma TickKeepsOld(t: Tracker, now: int, answer: bool, answeredAt: int)
    requires WellFormed(t)
    ensures var r := Tick(t, now, answer, answeredAt);
            && WellFormed(r)
            && r.nextId >= t.nextId
            && (forall i :: i in r.sessions && i < t.nextId ==>
                  i in t.sessions && r.sessions[i] == Expire(t.sessions[i], now))
  {
    SessionProperties.TickWellFormed(t, now, answer, answeredAt);
  }

  /** Once finished, a session never changes again for as long as it is
      tracked: in particular its `finishedTime` keeps its first value and its
      popup flag stays set. */
  lemma {:induction false} FinishedSessionsFrozen(t: Tracker, es: seq<Event>, i: Id)
    requires WellFormed(t)
    requires i in t.sessions && t.sessions[i].finished
    requires i in Run(t, es).sessions
    ensures Run(t, es).sessions[i] == t.sessions[i]
    decreases |es|
  {
    if es != [] {
      var t' := Step(t, es[0]);
      StepKeepsOld(t, es[0]);
      OldIdsStayGone(t', es[1..], i);
      assert i in t'.sessions;
      FinishedSessionsFrozen(t', es[1..], i);
    }
  }

  /** A session that is no longer tracked never comes back: ids are not
      reused. Put positively, an old id tracked at the end of a run was
      tracked all along. */
  lemma {:induction false} OldIdsStayGone(t: Tracker, es: seq<Event>, i: Id)
    requires WellFormed(t)
    requires i < t.nextId && i in Run(t, es).sessions
    ensures i in t.sessions
    decreases |es|
  {
    if es != [] {
      var t' := Step(t, es[0]);
      StepKeepsOld(t, es[0]);
      OldIdsStayGone(t', es[1..], i);
    }
  }

  /** Every id in `done` is an id already handed out whose session, while
      still tracked, has had its popup. */
  ghost predicate Acknowledged(t: Tracker, done: set<Id>) {
    forall h :: h in done ==> h < t.nextId && (h in t.sessions ==> t.sessions[h].popupShown)
  }

  lemma StepAcknowledges(t: Tracker, e: Event, done: set<Id>)
    requires WellFormed(t) && Acknowledged(t, done)
    ensures var h := HandledBy(t, e);
            && (h.Some? ==> h.value !in done)
            && WellFormed(Step(t, e))
            && Acknowledged(Step(t, e), done + (if h.Some? then {h.value} else {}))
  {
    StepKeepsOld(t, e);
    var h := HandledBy(t, e);
    var now := if e.TickAt? then e.now else 0;
    if h.Some? {
      assert Pending(t.sessions, h.value, now);
      assert h.value in t.order;
    }
    AcknowledgedCarries(t, Step(t, e), e.TickAt?, now, done, h);
  }

  /** A step that changes old sessions at most by expiring them keeps every
      acknowledged id acknowledged, and acknowledges the session it handled,
      which was due. */
  lemma AcknowledgedCarries(t: Tracker, r: Tracker, tick: bool, now: int, done: set<Id>, h: Option<Id>)
    requires Acknowledged(t, done) && r.nextId >= t.nextId
    requires forall i :: i in r.sessions && i < t.nextId ==>
               i in t.sessions && r.sessions[i] == if tick then Expire(t.sessions[i], now) else t.sessions[i]
    requires h.Some? ==> tick && h.value < t.nextId && h.value in t.sessions && Due(t.sessions[h.value], now)
    ensures Acknowledged(r, done + (if h.Some? then {h.value} else {}))
  {
    var done' := done + (if h.Some? then {h.value} else {});
    forall i | i in done' ensures i < r.nextId && (i in r.sessions ==> r.sessions[i].popupShown) {
      if i in r.sessions {
        if tick {
          assert r.sessions[i] == Expire(t.sessions[i], now);
        }
      }
    }
  }

  lemma PrependFresh(head: seq<Id>, tail: seq<Id>)
    requires |head| <= 1 && NoDuplicates(tail)
    requires forall h :: h in head ==> h !in tail
    ensures NoDuplicates(head + tail)
  {
    var s := head + tail;
    forall j, k | 0 <= j < k < |s| ensures s[j] != s[k] {
      assert s[k] == tail[k - |head|];
      if j >= |head| {
        assert s[j] == tail[j - |head|];
      } else {
        assert s[j] in head;
      }
    }
  }

  /** Each session's completion policy runs at most once over any run:
      no id appears twice in the trace of handled sessions, and none that
      was already acknowledged before the run appears at all. */
  lemma {:induction false} PolicyRunsAtMostOnce(t: Tracker, es: seq<Event>, done: set<Id>)
    requires WellFormed(t) && Acknowledged(t, done)
    ensures NoDuplicates(Trace(t, es))
    ensures forall h :: h in done ==> h !in Trace(t, es)
    decreases |es|
  {
    if es != [] {
      var e := es[0];
      var h := HandledBy(t, e);
      var head: seq<Id> := if h.Some? then [h.value] else [];
      var done' := done + (if h.Some? then {h.value} else {});
      StepAcknowledges(t, e, done);
      var tail := Trace(Step(t, e), es[1..]);
      PolicyRunsAtMostOnce(Step(t, e), es[1..], done');
      assert Trace(t, es) == head + tail;
      PrependFresh(head, tail);
    }
  }

  /** From a freshly constructed window, no session is handled twice. */
  lemma PolicyRunsAtMostOnceFromStart(hasScheduler: bool, es: seq<Event>)
    ensures NoDuplicates(Trace(Tracker(hasScheduler, map[], [], 0, 0, {}, []), es))
  {
    PolicyRunsAtMostOnce(Tracker(hasScheduler, map[], [], 0, 0, {}, []), es, {});
  }
}
