/** The two pure computations of the main window: the mm:ss countdown shown
    for an unfinished session, and the slider's snap to the nearest marked
    value when it is released. */
module Display {
  import Text

  /** Whole seconds left until `endTime`, never negative: the source takes
      `int(...)` of the difference and then raises a negative value to 0. */
  function Remaining(endTime: int, now: int): (r: nat)
    ensures r >= endTime - now
    ensures r == 0 || r == endTime - now
  {
    if endTime - now < 0 then 0 else endTime - now
  }

  /** `divmod(remaining, 60)`: whole minutes and leftover seconds. */
  function Countdown(endTime: int, now: int): (ms: (nat, nat))
    ensures ms.1 < 60
    ensures ms.0 * 60 + ms.1 == Remaining(endTime, now)
  {
    var r := Remaining(endTime, now);
    (r / 60, r % 60)
  }

  /** The countdown text `f"{mins:02d}:{secs:02d}"`. */
  function CountdownText(endTime: int, now: int): (s: string)
    ensures |s| >= 5 && s[|s| - 3] == ':'
    ensures forall k :: 0 <= k < |s| && k != |s| - 3 ==> Text.IsDigit(s[k])
    ensures |s| > 5 ==> s[0] != '0'
  {
    var (mins, secs) := Countdown(endTime, now);
    Text.Pad2(mins) + ":" + Text.Pad2(secs)
  }

  /** The countdown text reads back as the remaining time: the part before
      the colon is the minutes, the last two digits the seconds, and together
      they give the clamped number of seconds left. */
  lemma CountdownTextReadsBack(endTime: int, now: int)
    ensures var s := CountdownText(endTime, now);
            var mins, secs := s[..|s| - 3], s[|s| - 2..];
            Text.ValueOf(secs) < 60 &&
            Text.ValueOf(mins) * 60 + Text.ValueOf(secs) == Remaining(endTime, now)
  {
    var (m, c) := Countdown(endTime, now);
    var s := CountdownText(endTime, now);
    assert s[..|s| - 3] == Text.Pad2(m);
    assert s[|s| - 2..] == Text.Pad2(c);
    Text.Pad2RoundTrip(m);
    Text.Pad2RoundTrip(c);
  }

  function Abs(x: int): nat {
    if x < 0 then -x else x
  }

  /** Index of the element of `options` nearest to `v`, as Python's
      `min(options, key=lambda x: abs(x - v))`: the FIRST of the nearest
      elements when several are equally near. */
  function ClosestIndex(options: seq<int>, v: int): (k: nat)
    requires |options| > 0
    ensures k < |options|
    ensures forall j :: 0 <= j < |options| ==> Abs(options[k] - v) <= Abs(options[j] - v)
    ensures forall j :: 0 <= j < k ==> Abs(options[j] - v) > Abs(options[k] - v)
  {
    if |options| == 1 then 0
    else
      var k := 1 + ClosestIndex(options[1..], v);
      assert options[k] == options[1..][k - 1];
      if Abs(options[k] - v) < Abs(options[0] - v) then k else 0
  }

  /** The slider's marked positions, in minutes. */
  const Snaps: seq<int> := [0, 30, 60, 90, 120]

  /** `on_slider_released`: the nearest marked position if it is closer
      than 5, otherwise the value itself. */
  function SnapSlider(v: int): (r: int)
    ensures r == v || (r in Snaps && Abs(r - v) < 5)
  {
    var closest := Snaps[ClosestIndex(Snaps, v)];
    if Abs(v - closest) < 5 then closest else v
  }

  /** The slider snaps exactly when some marked position is closer than 5;
      a value at least 5 from every mark is kept. */
  lemma SnapSliderSpec(v: int)
    ensures var r := SnapSlider(v);
            && ((exists s :: s in Snaps && Abs(v - s) < 5) ==> r in Snaps && Abs(r - v) < 5)
            && ((forall s :: s in Snaps ==> Abs(v - s) >= 5) ==> r == v)
  {
    var c := Snaps[ClosestIndex(Snaps, v)];
    if exists s :: s in Snaps && Abs(v - s) < 5 {
      var s :| s in Snaps && Abs(v - s) < 5;
      var j :| 0 <= j < |Snaps| && Snaps[j] == s;
      assert Abs(c - v) <= Abs(Snaps[j] - v);
    }
  }

  /** The result is strictly nearer to the value than every other mark, so
      when it snaps it snaps to the nearest mark. */
  lemma SnapNearest(v: int)
    ensures var r := SnapSlider(v);
            forall s :: s in Snaps && s != r ==> Abs(v - s) > Abs(v - r)
  {
    var c := Snaps[ClosestIndex(Snaps, v)];
    if Abs(v - c) < 5 {
      assert c == 0 || c == 30 || c == 60 || c == 90 || c == 120;
      forall s | s in Snaps && s != c ensures Abs(v - s) > Abs(v - c) {
        assert s == 0 || s == 30 || s == 60 || s == 90 || s == 120;
        assert Abs(s - c) >= 30;
      }
    }
  }

  /** Releasing the slider twice changes nothing the second time. */
  lemma SnapIdempotent(v: int)
    ensures SnapSlider(SnapSlider(v)) == SnapSlider(v)
  {
    var r := SnapSlider(v);
    SnapSliderSpec(v);
    SnapSliderSpec(r);
    SnapNearest(r);
    if r in Snaps {
      assert Abs(r - r) < 5;
    }
  }
}
