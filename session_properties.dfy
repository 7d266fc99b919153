/** What one call of each tracker operation promises, stated over the
    specification functions of module Sessions. */
module SessionProperties {
  import opened Base
  import Text
  import opened Sessions

  /** A non-positive duration, or a title that is blank once stripped, starts
      nothing: the tracker is left exactly as it was. */
  lemma StartRejected(t: Tracker, text: string, now: int, seconds: int, isPomodoro: bool)
    requires seconds <= 0 || Text.AllSpace(text)
    ensures StartWithInput(t, text, now, seconds, isPomodoro) == t
  {
  }

  /** An accepted start adds exactly one session, under the next id, at the
      end of the dictionary order: unfinished, without a popup, ending
      `seconds` after it starts, titled with the stripped input, and a
      pomodoro exactly when started as one. No other session changes. */
  lemma StartAddsOneSession(t: Tracker, text: string, now: int, seconds: int, isPomodoro: bool)
    requires WellFormed(t)
    requires seconds > 0 && t.hasScheduler && !Text.AllSpace(text)
    ensures var r := StartWithInput(t, text, now, seconds, isPomodoro);
            var s := r.sessions[t.nextId];
            && t.nextId !in t.sessions
            && r.sessions.Keys == t.sessions.Keys + {t.nextId}
            && r.order == t.order + [t.nextId]
            && s.title == Text.Strip(text) && s.title != []
            && s.startTime == now && s.endTime == s.startTime + seconds
            && !s.finished && s.finishedTime == None && !s.popupShown
            && (s.kind == FocusPomo <==> isPomodoro)
            && (forall i :: i in t.sessions ==> r.sessions[i] == t.sessions[i])
            && r.notices == t.notices + [Started(s.title, seconds)]
            && t.nextId in r.jobs
  {
    Text.StripSpec(text);
    assert t.nextId !in t.order;
  }

  lemma StartWithInputWellFormed(t: Tracker, text: string, now: int, seconds: int, isPomodoro: bool)
    requires WellFormed(t)
    ensures WellFormed(StartWithInput(t, text, now, seconds, isPomodoro))
  {
    StartWellFormed(t, now, seconds, Text.Strip(text), if isPomodoro then FocusPomo else FocusManual);
  }

  /** The completion policy touches no existing session: it can only add the
      chained session under the next id, and never lowers the id counter. */
  lemma CompleteOnlyAdds(t: Tracker, kind: Kind, answer: bool, answeredAt: int)
    requires WellFormed(t)
    ensures var r := Complete(t, kind, answer, answeredAt);
            && r.nextId >= t.nextId
            && r.sessions.Keys <= t.sessions.Keys + {t.nextId}
            && (forall i :: i in t.sessions ==> i in r.sessions && r.sessions[i] == t.sessions[i])
            && WellFormed(r)
  {
    assert t.nextId !in t.order;
    match kind
    case FocusPomo =>
      var count := t.pomodoroCount + 1;
      StartWellFormed(t.(pomodoroCount := count), answeredAt, BreakMinutes(count) * 60,
                      BreakTitle(BreakMinutes(count)), Break);
    case Break =>
      StartWellFormed(t, answeredAt, PomodoroMinutes * 60, NextFocusTitle, FocusPomo);
    case FocusManual =>
  }

  /** The tick keeps the tracker well formed: in particular a popup is only
      ever marked on a finished session, and `finishedTime` is set exactly on
      finished sessions. */
  lemma TickWellFormed(t: Tracker, now: int, answer: bool, answeredAt: int)
    requires WellFormed(t)
    ensures WellFormed(Tick(t, now, answer, answeredAt))
  {
    var t1 := t.(sessions := ExpireAll(t.sessions, now));
    ExpireAllWellFormed(t, now);
    match Handled(t, now)
    case None =>
    case Some(id) => CompleteOnlyAdds(t1, t.sessions[id].kind, answer, answeredAt);
  }

  /** A tick at `now` finishes exactly the sessions that were unfinished and
      had no time left, recording `finishedTime = now` and the popup flag on
      them; every other existing session is left as it was, so a finished
      session is never touched again. */
  lemma TickFinishesDueSessions(t: Tracker, now: int, answer: bool, answeredAt: int)
    requires WellFormed(t)
    ensures var r := Tick(t, now, answer, answeredAt);
            && (forall i :: i in t.sessions ==> i in r.sessions)
            && (forall i :: i in t.sessions && Due(t.sessions[i], now) ==>
                  r.sessions[i].finished && r.sessions[i].finishedTime == Some(now) && r.sessions[i].popupShown)
            && (forall i :: i in t.sessions && !Due(t.sessions[i], now) ==> r.sessions[i] == t.sessions[i])
            && (forall i :: i in t.sessions && t.sessions[i].finished ==> r.sessions[i] == t.sessions[i])
  {
    var t1 := t.(sessions := ExpireAll(t.sessions, now));
    ExpireAllWellFormed(t, now);
    match Handled(t, now)
    case None =>
    case Some(id) => CompleteOnlyAdds(t1, t.sessions[id].kind, answer, answeredAt);
  }

  /** The handled session is one that became due on this tick and had not had
      its popup; when several became due together, it is the last of them in
      dictionary order, and all of them get their popup flag anyway. */
  lemma TickHandlesLastPending(t: Tracker, now: int)
    requires WellFormed(t)
    requires Handled(t, now).Some?
    ensures var id := Handled(t, now).value;
            && id in t.sessions && Due(t.sessions[id], now) && !t.sessions[id].popupShown
            && (forall i :: i in t.sessions && Pending(t.sessions, i, now) ==> i <= id)
  {
    LastPendingSpec(t.order, t.sessions, now);
    var id := Handled(t, now).value;
    var k :| 0 <= k < |t.order| && t.order[k] == id &&
             forall j :: k < j < |t.order| ==> !Pending(t.sessions, t.order[j], now);
    forall i | i in t.sessions && Pending(t.sessions, i, now) ensures i <= id {
      var j :| 0 <= j < |t.order| && t.order[j] == i;
      assert j <= k;
      if j < k {
        assert t.order[j] < t.order[k];
      }
    }
  }

  /** The pomodoro counter rises by one exactly when the handled session is a
      pomodoro, and otherwise stays; so only finished pomodoros are counted,
      at most one per tick. */
  lemma TickCountsPomodoros(t: Tracker, now: int, answer: bool, answeredAt: int)
    requires WellFormed(t)
    ensures var r := Tick(t, now, answer, answeredAt);
            var h := Handled(t, now);
            r.pomodoroCount == t.pomodoroCount +
              (if h.Some? && t.sessions[h.value].kind == FocusPomo then 1 else 0)
  {
    var t1 := t.(sessions := ExpireAll(t.sessions, now));
    match Handled(t, now)
    case None =>
    case Some(id) =>
      var kind := t.sessions[id].kind;
      if kind == FocusPomo {
        var count := t1.pomodoroCount + 1;
        assert Start(t1.(pomodoroCount := count), answeredAt, BreakMinutes(count) * 60,
                     BreakTitle(BreakMinutes(count)), Break).pomodoroCount == count;
      } else if kind == Break {
        assert Start(t1, answeredAt, PomodoroMinutes * 60, NextFocusTitle, FocusPomo).pomodoroCount
               == t1.pomodoroCount;
      }
  }

  /** What a tick chains. A finished pomodoro whose dialog is accepted starts
      a break of `BreakMinutes(count + 1)` minutes at the time of the answer;
      a finished break whose dialog is accepted starts a 25-minute pomodoro;
      in every other case (a manual session, a declined dialog, nothing
      handled) no session is added. */
  lemma TickChains(t: Tracker, now: int, answer: bool, answeredAt: int)
    requires WellFormed(t) && t.hasScheduler
    ensures var r := Tick(t, now, answer, answeredAt);
            var h := Handled(t, now);
            var kind := if h.Some? then t.sessions[h.value].kind else FocusManual;
            var minutes := BreakMinutes(t.pomodoroCount + 1);
            && (h.Some? && kind == FocusPomo && answer ==>
                  r.sessions.Keys == t.sessions.Keys + {t.nextId} &&
                  r.sessions[t.nextId] == NewSession(BreakTitle(minutes), Break, answeredAt, minutes * 60))
            && (h.Some? && kind == Break && answer ==>
                  r.sessions.Keys == t.sessions.Keys + {t.nextId} &&
                  r.sessions[t.nextId] == NewSession(NextFocusTitle, FocusPomo, answeredAt, 25 * 60))
            && (h.None? || kind == FocusManual || !answer ==> r.sessions.Keys == t.sessions.Keys)
  {
    var t1 := t.(sessions := ExpireAll(t.sessions, now));
    assert t1.sessions.Keys == t.sessions.Keys;
    var r := Tick(t, now, answer, answeredAt);
    var h := Handled(t, now);
    if h.Some? {
      var kind := t.sessions[h.value].kind;
      assert r == Complete(t1, kind, answer, answeredAt);
      if kind == FocusPomo {
        var count := t.pomodoroCount + 1;
        var minutes := BreakMinutes(count);
        if answer {
          assert r == Start(t1.(pomodoroCount := count), answeredAt, minutes * 60, BreakTitle(minutes), Break);
        } else {
          assert r == t1.(pomodoroCount := count);
        }
      } else if kind == Break {
        if answer {
          assert r == Start(t1, answeredAt, PomodoroMinutes * 60, NextFocusTitle, FocusPomo);
        } else {
          assert r == t1;
        }
      } else {
        assert r == t1;
      }
    } else {
      assert r == t1;
    }
  }

  /** Break lengths follow the four-cycle rule: pomodoros 1, 2, 3 and 4 are
      followed by breaks of 5, 5, 5 and 15 minutes, and the pattern repeats.
      The two break titles are spelled out. */
  lemma BreakCycle(n: nat)
    ensures [BreakMinutes(1), BreakMinutes(2), BreakMinutes(3), BreakMinutes(4)] == [5, 5, 5, 15]
    ensures BreakMinutes(n + 4) == BreakMinutes(n)
    ensures BreakMinutes(n) == 15 <==> n % 4 == 0
    ensures BreakTitle(LongBreakMinutes) == "长休息 (15min)" && BreakTitle(ShortBreakMinutes) == "短休息 (5min)"
  {
  }

  /** Cancelling an id that is not tracked changes nothing; cancelling a
      tracked one removes exactly that session (from the dictionary, its key
      order and the scheduler) and emits a cancellation notice unless the
      session is only being closed. Cancelling twice is cancelling once. */
  lemma CancelRemovesOne(t: Tracker, id: Id, forceClose: bool, forceAgain: bool)
    requires WellFormed(t)
    ensures var r := Cancel(t, id, forceClose);
            && (id !in t.sessions ==> r == t)
            && (id in t.sessions ==>
                  && r.sessions.Keys == t.sessions.Keys - {id}
                  && (forall i :: i in r.sessions ==> r.sessions[i] == t.sessions[i])
                  && id !in r.order && |r.order| == |t.order| - 1
                  && (t.hasScheduler ==> r.jobs == t.jobs - {id})
                  && r.notices == t.notices + (if forceClose then [] else [Cancelled])
                  && r.pomodoroCount == t.pomodoroCount && r.nextId == t.nextId)
            && Cancel(r, id, forceAgain) == r
            && WellFormed(r)
  {
    CancelWellFormed(t, id, forceClose);
    if id in t.sessions {
      var r := Without(t.order, id);
      WithoutIncreasing(t.order, id);
      assert forall i :: i in r <==> i in t.sessions - {id};
      OrderCounts(t.order, t.sessions.Keys);
      OrderCounts(r, t.sessions.Keys - {id});
    }
  }

  /** An increasing sequence listing exactly the members of a set is as long
      as the set is large. */
  lemma {:induction false} OrderCounts(order: seq<Id>, keys: set<Id>)
    requires Increasing(order)
    requires forall i :: i in order <==> i in keys
    ensures |order| == |keys|
  {
    if order != [] {
      var rest := order[1..];
      assert Increasing(rest);
      assert order[0] !in rest by {
        forall j | 0 <= j < |rest| ensures rest[j] != order[0] {
          assert rest[j] == order[j + 1];
        }
      }
      assert forall i :: i in rest <==> i in keys - {order[0]};
      OrderCounts(rest, keys - {order[0]});
    }
  }
}
