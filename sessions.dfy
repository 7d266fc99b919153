/** The countdown-session tracker of the main window: the dictionary of
    active sessions, the process-lifetime pomodoro counter, the 1 Hz tick
    that marks expired sessions finished, and the completion policy that
    chains pomodoros and breaks.

    Time is whole seconds on an integer clock; the current time and the
    user's answer to the completion dialog are parameters. Session ids are
    naturals handed out by a counter, so they are never reused, and the
    dictionary's insertion order (Python dictionaries iterate in insertion
    order) is kept as the sequence `order`. */
module Sessions {
  import opened Base
  import Text

  type Id = nat

  /** The `type` field of a session: `focus_manual`, `focus_pomo`, `break`. */
  datatype Kind = FocusManual | FocusPomo | Break

  /** One entry of `active_ui_tasks`. `finishedTime` is `None` while the
      `finished_time` key has not been written. */
  datatype Session = Session(
    title: string,
    startTime: int,
    endTime: int,
    finished: bool,
    finishedTime: Option<int>,
    popupShown: bool,
    kind: Kind)

  /** The messages the window emits on its `sig_notify` signal. */
  datatype Notice = Started(title: string, seconds: int) | Cancelled

  /** The tracker's whole state: whether a scheduler was supplied, the
      session dictionary with its key order, the id counter, the pomodoro
      counter, the ids of the jobs registered with the scheduler, and the
      notifications emitted so far. */
  datatype Tracker = Tracker(
    hasScheduler: bool,
    sessions: map<Id, Session>,
    order: seq<Id>,
    nextId: Id,
    pomodoroCount: nat,
    jobs: set<Id>,
    notices: seq<Notice>)

  const PomodoroMinutes: nat := 25
  const ShortBreakMinutes: nat := 5
  const LongBreakMinutes: nat := 15
  const NextFocusTitle: string := "下一轮专注"

  predicate Increasing(s: seq<Id>) {
    forall j, k :: 0 <= j < k < |s| ==> s[j] < s[k]
  }

  ghost predicate SessionValid(s: Session) {
    && s.startTime < s.endTime
    && (s.finished <==> s.finishedTime.Some?)
    && (s.popupShown ==> s.finished)
  }

  /** `order` lists exactly the keys, in increasing (= insertion) order, all
      below the id counter, and every session is consistent. */
  ghost predicate WellFormed(t: Tracker) {
    && (forall i :: i in t.sessions <==> i in t.order)
    && Increasing(t.order)
    && (forall i :: i in t.order ==> i < t.nextId)
    && (forall i :: i in t.sessions ==> SessionValid(t.sessions[i]))
  }

  function NewSession(title: string, kind: Kind, now: int, seconds: int): Session {
    Session(title, now, now + seconds, false, None, false, kind)
  }

  /** `start_focus_timer`: a non-positive duration, or a missing scheduler,
      starts nothing; otherwise a fresh session is added at the end of the
      dictionary, a job is registered under its id and a start notice is
      emitted. */
  function Start(t: Tracker, now: int, seconds: int, title: string, kind: Kind): (r: Tracker)
    ensures seconds <= 0 || !t.hasScheduler ==> r == t
    ensures r.hasScheduler == t.hasScheduler && r.pomodoroCount == t.pomodoroCount && r.nextId >= t.nextId
    ensures forall i :: i in t.sessions && i != t.nextId ==> i in r.sessions && r.sessions[i] == t.sessions[i]
  {
    if seconds <= 0 || !t.hasScheduler then t
    else
      t.(sessions := t.sessions[t.nextId := NewSession(title, kind, now, seconds)],
         order := t.order + [t.nextId],
         nextId := t.nextId + 1,
         jobs := t.jobs + {t.nextId},
         notices := t.notices + [Started(title, seconds)])
  }

  /** `start_focus_with_input`: the stripped text of the input field is the
      title; a blank title starts nothing. */
  function StartWithInput(t: Tracker, text: string, now: int, seconds: int, isPomodoro: bool): (r: Tracker)
    ensures Text.AllSpace(text) ==> r == t
    ensures r.pomodoroCount == t.pomodoroCount
  {
    Text.StripSpec(text);
    var title := Text.Strip(text);
    if title == [] then t
    else Start(t, now, seconds, title, if isPomodoro then FocusPomo else FocusManual)
  }

  /** A session the tick finds unfinished with no time left. */
  predicate Due(s: Session, now: int) {
    !s.finished && s.endTime - now <= 0
  }

  /** One session's part of the tick. */
  function Expire(s: Session, now: int): (r: Session)
    ensures r.finished == (s.finished || Due(s, now))
    ensures r.finishedTime == if Due(s, now) then Some(now) else s.finishedTime
    ensures r.popupShown == (s.popupShown || Due(s, now))
    ensures r.title == s.title && r.startTime == s.startTime && r.endTime == s.endTime && r.kind == s.kind
  {
    if Due(s, now) then s.(finished := true, finishedTime := Some(now), popupShown := true) else s
  }

  function ExpireAll(m: map<Id, Session>, now: int): (r: map<Id, Session>)
    ensures r.Keys == m.Keys
    ensures forall i :: i in m ==> (r[i].finished <==> m[i].finished || Due(m[i], now))
    ensures forall i :: i in m && !Due(m[i], now) ==> r[i] == m[i]
    ensures forall i :: i in r ==> !Due(r[i], now)
  {
    map i | i in m :: Expire(m[i], now)
  }

  /** A session for which this tick owes a completion dialog. */
  predicate Pending(m: map<Id, Session>, i: Id, now: int) {
    i in m && Due(m[i], now) && !m[i].popupShown
  }

  /** The session whose completion the tick handles: the LAST pending one in
      iteration order (each pending session overwrites `popup_needed_for`).
      Lemma `LastPendingSpec` states that it is the last. */
  function LastPending(order: seq<Id>, m: map<Id, Session>, now: int): (r: Option<Id>)
    ensures r.Some? ==> Pending(m, r.value, now)
  {
    if order == [] then None
    else
      var last := order[|order| - 1];
      if Pending(m, last, now) then Some(last) else LastPending(order[..|order| - 1], m, now)
  }

  /** `LastPending` finds nothing exactly when no key is pending, and what it
      finds is a key with no pending key after it. */
  lemma {:induction false} LastPendingSpec(order: seq<Id>, m: map<Id, Session>, now: int)
    ensures var r := LastPending(order, m, now);
            && (r.None? <==> forall k :: 0 <= k < |order| ==> !Pending(m, order[k], now))
            && (r.Some? ==> exists k :: 0 <= k < |order| && order[k] == r.value &&
                              forall j :: k < j < |order| ==> !Pending(m, order[j], now))
  {
    if order != [] {
      var n := |order| - 1;
      if !Pending(m, order[n], now) {
        var front := order[..n];
        LastPendingSpec(front, m, now);
        assert forall k :: 0 <= k < n ==> front[k] == order[k];
      }
    }
  }

  /** Break length in minutes after the `count`-th completed pomodoro. */
  function BreakMinutes(count: nat): (minutes: nat)
    ensures minutes == LongBreakMinutes || minutes == ShortBreakMinutes
  {
    if count % 4 == 0 then LongBreakMinutes else ShortBreakMinutes
  }

  /** The title of a chained break, `f"{break_name} ({breaks_needed}min)"`. */
  function BreakTitle(minutes: nat): (title: string)
    ensures |title| >= 10
    ensures title[..3] == if minutes == LongBreakMinutes then "长休息" else "短休息"
    ensures title[3..5] == " (" && title[|title| - 4..] == "min)"
    ensures var digits := title[5..|title| - 4];
            (forall k :: 0 <= k < |digits| ==> Text.IsDigit(digits[k])) && Text.ValueOf(digits) == minutes
  {
    var digits := Text.Decimal(minutes);
    Text.DecimalRoundTrip(minutes);
    var title := (if minutes == LongBreakMinutes then "长休息" else "短休息") + " (" + digits + "min)";
    assert title[5..|title| - 4] == digits;
    title
  }

  /** The completion policy for a session of kind `kind`, given the user's
      answer and the time the answer was given. */
  function Complete(t: Tracker, kind: Kind, answer: bool, answeredAt: int): (r: Tracker)
    ensures r.pomodoroCount == t.pomodoroCount + (if kind == FocusPomo then 1 else 0)
    ensures kind == FocusManual || !answer ==> r.sessions == t.sessions && r.order == t.order
    ensures t.sessions.Keys <= r.sessions.Keys <= t.sessions.Keys + {t.nextId}
    ensures forall i :: i in t.sessions && i != t.nextId ==> r.sessions[i] == t.sessions[i]
    ensures r.nextId >= t.nextId
  {
    match kind
    case FocusPomo =>
      var count := t.pomodoroCount + 1;
      var t1 := t.(pomodoroCount := count);
      if answer then Start(t1, answeredAt, BreakMinutes(count) * 60, BreakTitle(BreakMinutes(count)), Break)
      else t1
    case Break =>
      if answer then Start(t, answeredAt, PomodoroMinutes * 60, NextFocusTitle, FocusPomo) else t
    case FocusManual => t
  }

  /** The session a tick at `now` hands to the completion policy, if any. */
  function Handled(t: Tracker, now: int): Option<Id> {
    LastPending(t.order, t.sessions, now)
  }

  /** `update_task_timers`: expire every due session, then run the policy
      for at most one of them. */
  function Tick(t: Tracker, now: int, answer: bool, answeredAt: int): (r: Tracker)
    ensures t.sessions.Keys <= r.sessions.Keys <= t.sessions.Keys + {t.nextId}
    ensures forall i :: i in t.sessions && i != t.nextId ==> r.sessions[i] == Expire(t.sessions[i], now)
    ensures t.pomodoroCount <= r.pomodoroCount <= t.pomodoroCount + 1
    ensures r.nextId >= t.nextId
  {
    var t1 := t.(sessions := ExpireAll(t.sessions, now));
    match Handled(t, now)
    case None => t1
    case Some(id) => Complete(t1, t.sessions[id].kind, answer, answeredAt)
  }

  lemma StartWellFormed(t: Tracker, now: int, seconds: int, title: string, kind: Kind)
    requires WellFormed(t)
    ensures WellFormed(Start(t, now, seconds, title, kind))
  {
    if seconds > 0 && t.hasScheduler {
      var r := Start(t, now, seconds, title, kind);
      var o := t.order + [t.nextId];
      assert r.order == o;
      forall j, k | 0 <= j < k < |o| ensures o[j] < o[k] {
        assert o[j] == t.order[j];
        if k == |t.order| {
          assert t.order[j] in t.order;
        }
      }
      assert forall i :: i in o <==> i in t.order || i == t.nextId;
      assert forall i :: i in r.sessions <==> i in t.sessions || i == t.nextId;
      assert SessionValid(r.sessions[t.nextId]);
    }
  }

  lemma ExpireAllWellFormed(t: Tracker, now: int)
    requires WellFormed(t)
    ensures WellFormed(t.(sessions := ExpireAll(t.sessions, now)))
  {
  }

  /** `order` without `id`. */
  function Without(order: seq<Id>, id: Id): (r: seq<Id>)
    ensures forall i :: i in r <==> i in order && i != id
    ensures |r| <= |order|
  {
    if order == [] then []
    else
      var rest := Without(order[1..], id);
      assert forall i :: i in order[1..] ==> i in order;
      if order[0] == id then rest
      else
        [order[0]] + rest
  }

  /** Removing a key keeps the key order increasing. */
  lemma {:induction false} WithoutIncreasing(order: seq<Id>, id: Id)
    requires Increasing(order)
    ensures Increasing(Without(order, id))
  {
    if order != [] {
      var rest := Without(order[1..], id);
      assert Increasing(order[1..]);
      WithoutIncreasing(order[1..], id);
      if order[0] != id {
        var r := [order[0]] + rest;
        assert forall i :: i in order[1..] ==> order[0] < i;
        forall j, k | 0 <= j < k < |r| ensures r[j] < r[k] {
          assert r[k] == rest[k - 1] && r[k] in rest;
        }
      }
    }
  }

  lemma CancelWellFormed(t: Tracker, id: Id, forceClose: bool)
    requires WellFormed(t)
    ensures WellFormed(Cancel(t, id, forceClose))
  {
    WithoutIncreasing(t.order, id);
  }

  /** `cancel_task`: an id that is not in the dictionary changes nothing;
      otherwise the session and its scheduler job are removed, and a
      cancellation notice is emitted unless the session is merely being
      closed. */
  function Cancel(t: Tracker, id: Id, forceClose: bool): (r: Tracker)
    ensures r.sessions.Keys == t.sessions.Keys - {id}
    ensures forall i :: i in r.sessions ==> r.sessions[i] == t.sessions[i]
    ensures r.nextId == t.nextId && r.pomodoroCount == t.pomodoroCount
  {
    if id !in t.sessions then t
    else
      t.(sessions := t.sessions - {id},
         order := Without(t.order, id),
         jobs := if t.hasScheduler then t.jobs - {id} else t.jobs,
         notices := if forceClose then t.notices else t.notices + [Cancelled])
  }

  /** The sessions once the walk of the tick has passed the keys `walked`. */
  function ExpireWalked(m: map<Id, Session>, walked: seq<Id>, now: int): map<Id, Session> {
    map i | i in m :: if i in walked then Expire(m[i], now) else m[i]
  }

  /** The `for` loop of `update_task_timers`: walks the sessions in
      dictionary order, marks each due one finished at `now` and sets its
      `popup_shown`, and remembers the last one whose `popup_shown` was still
      false. */
  method ExpireSessions(sessions: map<Id, Session>, order: seq<Id>, now: int)
    returns (m: map<Id, Session>, popup: Option<Id>)
    requires forall i :: i in order <==> i in sessions
    requires Increasing(order)
    ensures m == ExpireAll(sessions, now)
    ensures popup == LastPending(order, sessions, now)
  {
    m := sessions;
    popup := None;
    var k := 0;
    assert order[..0] == [];
    while k < |order|
      invariant 0 <= k <= |order|
      invariant m == ExpireWalked(sessions, order[..k], now)
      invariant popup == LastPending(order[..k], sessions, now)
    {
      var id := order[k];
      WalkStep(sessions, order, k, now);
      LastPendingSnoc(order, k, sessions, now);
      var info := m[id];
      if !info.finished && info.endTime - now <= 0 {
        info := info.(finished := true, finishedTime := Some(now));
        if !info.popupShown {
          popup := Some(id);
          info := info.(popupShown := true);
        }
        m := m[id := info];
      }
      k := k + 1;
    }
    assert order[..k] == order;
  }

  /** Walking past the key at position `k` expires that session and no
      other. */
  lemma WalkStep(sessions: map<Id, Session>, order: seq<Id>, k: nat, now: int)
    requires Increasing(order) && k < |order| && order[k] in sessions
    ensures ExpireWalked(sessions, order[..k], now)[order[k]] == sessions[order[k]]
    ensures ExpireWalked(sessions, order[..k + 1], now) ==
            ExpireWalked(sessions, order[..k], now)[order[k] := Expire(sessions[order[k]], now)]
  {
    NextInPrefix(order, k);
  }

  /** The key at position `k` is new to the prefix before it, and the prefix
      grows by exactly that key. */
  lemma NextInPrefix(order: seq<Id>, k: nat)
    requires Increasing(order) && k < |order|
    ensures order[k] !in order[..k]
    ensures forall i :: i in order[..k + 1] <==> i in order[..k] || i == order[k]
  {
    assert order[..k + 1] == order[..k] + [order[k]];
    forall j | 0 <= j < k ensures order[..k][j] != order[k] {
      assert order[..k][j] == order[j];
    }
  }

  /** Extending the walked prefix by one key. */
  lemma LastPendingSnoc(order: seq<Id>, k: nat, m: map<Id, Session>, now: int)
    requires k < |order|
    ensures LastPending(order[..k + 1], m, now) ==
            if Pending(m, order[k], now) then Some(order[k]) else LastPending(order[..k], m, now)
  {
    assert order[..k + 1][..k] == order[..k];
  }

  /** The part of `MainWindow` that tracks sessions. The text of the input
      field is the field `inputText`. */
  class MainWindow {
    const hasScheduler: bool
    var sessions: map<Id, Session>
    var order: seq<Id>
    var nextId: Id
    var pomodoroCount: nat
    var jobs: set<Id>
    var notices: seq<Notice>
    var inputText: string

    ghost function State(): Tracker
      reads this
    {
      Tracker(hasScheduler, sessions, order, nextId, pomodoroCount, jobs, notices)
    }

    ghost predicate Valid()
      reads this
    {
      WellFormed(State())
    }

    constructor (hasScheduler: bool)
      ensures Valid()
      ensures State() == Tracker(hasScheduler, map[], [], 0, 0, {}, [])
      ensures inputText == ""
    {
      this.hasScheduler := hasScheduler;
      sessions, order, nextId := map[], [], 0;
      pomodoroCount, jobs, notices := 0, {}, [];
      inputText := "";
    }

    method StartFocusTimer(now: int, seconds: int, title: string, kind: Kind)
      requires Valid()
      modifies this
      ensures Valid()
      ensures State() == Start(old(State()), now, seconds, title, kind)
      ensures inputText == old(inputText)
    {
      if seconds <= 0 {
        return;
      }
      if hasScheduler {
        StartWellFormed(State(), now, seconds, title, kind);
        var id := nextId;
        sessions, order, nextId := sessions[id := NewSession(title, kind, now, seconds)], order + [id], id + 1;
        jobs, notices := jobs + {id}, notices + [Started(title, seconds)];
      }
    }

    method StartFocusWithInput(now: int, seconds: int, isPomodoro: bool)
      requires Valid()
      modifies this
      ensures Valid()
      ensures State() == StartWithInput(old(State()), old(inputText), now, seconds, isPomodoro)
      ensures inputText == if Text.AllSpace(old(inputText)) then old(inputText) else ""
    {
      var title := Text.Strip(inputText);
      Text.StripSpec(inputText);
      if title == [] {
        return;
      }
      var kind := if isPomodoro then FocusPomo else FocusManual;
      StartFocusTimer(now, seconds, title, kind);
      inputText := "";
    }

    method CancelTask(id: Id, forceClose: bool)
      requires Valid()
      modifies this
      ensures Valid()
      ensures State() == Cancel(old(State()), id, forceClose)
      ensures inputText == old(inputText)
    {
      if id in sessions {
        CancelWellFormed(State(), id, forceClose);
        var remaining := if hasScheduler then jobs - {id} else jobs;
        var emitted := if forceClose then notices else notices + [Cancelled];
        sessions, order, jobs, notices := sessions - {id}, Without(order, id), remaining, emitted;
      }
    }

    /** The 1 Hz tick at time `now`. `answer` is the user's answer to the
        completion dialog, should one be shown, and `answeredAt` the time it
        was given. */
    method UpdateTaskTimers(now: int, answer: bool, answeredAt: int)
      requires Valid()
      modifies this
      ensures Valid()
      ensures State() == Tick(old(State()), now, answer, answeredAt)
      ensures inputText == old(inputText)
    {
      var m, popup := ExpireSessions(sessions, order, now);
      ExpireAllWellFormed(State(), now);
      sessions := m;
      ghost var expired := State();
      assert expired == old(State()).(sessions := ExpireAll(old(sessions), now));
      assert popup == Handled(old(State()), now);
      if popup.Some? {
        var kind := m[popup.value].kind;
        assert kind == old(sessions)[popup.value].kind;
        HandleCompletion(kind, answer, answeredAt);
      }
    }

    /** The completion dialog of `update_task_timers` and what follows the
        user's answer: a finished pomodoro is counted and may chain a break
        of the length the new count calls for, a finished break may chain a
        25-minute pomodoro, a manual session is only acknowledged. */
    method HandleCompletion(kind: Kind, answer: bool, answeredAt: int)
      requires Valid()
      modifies this
      ensures Valid()
      ensures State() == Complete(old(State()), kind, answer, answeredAt)
      ensures inputText == old(inputText)
    {
      if kind == FocusPomo {
        pomodoroCount := pomodoroCount + 1;
        var minutes := BreakMinutes(pomodoroCount);
        if answer {
          StartFocusTimer(answeredAt, minutes * 60, BreakTitle(minutes), Break);
        }
      } else if kind == Break {
        if answer {
          StartFocusTimer(answeredAt, PomodoroMinutes * 60, NextFocusTitle, FocusPomo);
        }
      }
    }
  }
}
