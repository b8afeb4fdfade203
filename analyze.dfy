/**
 * public/analyze.js: the clock formatter, the ordering of coaching windows
 * by `freeze_at`, and the freeze-window scheduler that pauses playback the
 * first time the video reaches each window.
 */
module AnalyzePage {
  import opened Wrappers
  import opened Text

  // ---------------------------------------------------------------------
  // formatTime
  // ---------------------------------------------------------------------

  /** A JavaScript number as `formatTime` sees it: NaN or a finite value. */
  datatype TimeValue = NaN | Seconds(x: real)

  /** `Math.trunc`: rounds toward zero. */
  function JsTrunc(x: real): (r: int)
    ensures x >= 0.0 ==> 0.0 <= r as real <= x < r as real + 1.0
    ensures x < 0.0 ==> r as real - 1.0 < x <= r as real <= 0.0
  {
    if x >= 0.0 then x.Floor else -((-x).Floor)
  }

  /** JavaScript's `%` on numbers: the remainder takes the sign of the dividend. */
  function JsRem(x: real, m: real): real
    requires m > 0.0
  {
    x - m * (JsTrunc(x / m) as real)
  }

  /** `formatTime(seconds)`: `0:00` for NaN, else minutes, a colon and the seconds padded to two digits. */
  function FormatTime(t: TimeValue): (r: string)
    ensures t.NaN? ==> r == "0:00"
  {
    match t
    case NaN => "0:00"
    case Seconds(x) => Clock((x / 60.0).Floor, JsRem(x, 60.0).Floor)
  }

  /** The template `${mins}:${secs.toString().padStart(2, '0')}`. */
  function Clock(mins: int, secs: int): string {
    IntToString(mins) + ":" + PadStart2(IntToString(secs))
  }

  predicate AllDigits(s: string) {
    forall k :: 0 <= k < |s| ==> IsDigit(s[k])
  }

  /** Reads a clock `m:ss` back as a number of whole seconds. */
  function ParseClock(s: string): (r: Option<int>)
    ensures r.Some? ==> r.value >= 0
  {
    var colon := FirstIndexOfChar(s, ':');
    if colon.None? then None else ClockFields(s[..colon.value], s[colon.value + 1..])
  }

  /** The reader's two fields: both must be digit strings, and they count minutes and seconds. */
  function ClockFields(mins: string, secs: string): (r: Option<int>)
    ensures r.Some? <==> AllDigits(mins) && AllDigits(secs)
    ensures r.Some? ==> r.value == 60 * ParseNat(mins) + ParseNat(secs)
  {
    if AllDigits(mins) && AllDigits(secs) then Some(60 * ParseNat(mins) + ParseNat(secs)) else None
  }

  /** For a non-negative time the minutes and seconds split the whole seconds, with seconds in [0, 60). */
  lemma ClockDigits(x: real)
    requires x >= 0.0
    ensures var mins := (x / 60.0).Floor; var secs := JsRem(x, 60.0).Floor;
      mins >= 0 && 0 <= secs < 60 && 60 * mins + secs == x.Floor
  {
    var mins := (x / 60.0).Floor;
    assert mins as real <= x / 60.0 < mins as real + 1.0;
    assert 60.0 * (mins as real) <= x < 60.0 * (mins as real) + 60.0;
    var rem := JsRem(x, 60.0);
    assert rem == x - 60.0 * (mins as real);
    var n := x.Floor - 60 * mins;
    assert n as real <= rem < n as real + 1.0;
    assert rem.Floor == n;
  }

  /** The seconds field of a formatted time is always two characters wide for non-negative input. */
  lemma FormatTimeShape(x: real)
    requires x >= 0.0
    ensures var r := FormatTime(Seconds(x));
      var mins := NatToString((x / 60.0).Floor);
      |r| == |mins| + 3 && r[..|mins|] == mins && r[|mins|] == ':'
      && IsDigit(r[|mins| + 1]) && IsDigit(r[|mins| + 2])
  {
    ClockDigits(x);
    var secs := JsRem(x, 60.0).Floor;
    assert |NatToString(secs)| == 1 || |NatToString(secs)| == 2 by {
      if secs >= 10 {
        assert NatToString(secs) == NatToString(secs / 10) + [DigitChar(secs % 10)];
      }
    }
  }

  /** The first colon of a digit run, a colon and anything after is the one after the digits. */
  lemma ColonAfterDigits(mins: string, secs: string)
    requires AllDigits(mins)
    ensures FirstIndexOfChar(mins + ":" + secs, ':') == Some(|mins|)
  {
    var r := mins + ":" + secs;
    assert r[|mins|] == ':';
    forall j | 0 <= j < |mins| ensures r[j] != ':' {
      assert r[j] == mins[j] && IsDigit(mins[j]);
    }
  }

  /** A clock made of two digit runs joined by a colon splits back into those runs. */
  lemma ParseClockJoin(mins: string, secs: string)
    requires AllDigits(mins) && AllDigits(secs)
    ensures ParseClock(mins + ":" + secs) == ClockFields(mins, secs)
  {
    var r := mins + ":" + secs;
    ColonAfterDigits(mins, secs);
    assert r[..|mins|] == mins;
    assert r[|mins| + 1..] == secs;
  }

  /** Padding a digit run with a zero keeps its value. */
  lemma PadStart2Value(s: string)
    requires AllDigits(s)
    ensures AllDigits(PadStart2(s))
    ensures ParseNat(PadStart2(s)) == ParseNat(s)
  {
    if |s| == 0 {
      assert PadStart2(s) == "0" + "0";
      ParseNatLeadingZero("0");
      ParseNatLeadingZero("");
    } else if |s| == 1 {
      assert PadStart2(s) == "0" + s;
      ParseNatLeadingZero(s);
    }
  }

  /** The two fields of a clock are digit runs that read back as the minutes and the seconds. */
  lemma ClockFieldsOf(mins: nat, secs: nat) returns (ms: string, ps: string)
    ensures Clock(mins, secs) == ms + ":" + ps
    ensures AllDigits(ms) && AllDigits(ps)
    ensures ParseNat(ms) == mins && ParseNat(ps) == secs
  {
    ms := NatToString(mins);
    var ss := NatToString(secs);
    ps := PadStart2(ss);
    PadStart2Value(ss);
    ParseNatToString(mins);
    ParseNatToString(secs);
  }

  /** A clock written from whole minutes and seconds reads back as their total. */
  lemma ClockValue(mins: nat, secs: nat, total: int)
    requires total == 60 * mins + secs
    ensures ParseClock(Clock(mins, secs)) == Some(total)
  {
    var ms, ps := ClockFieldsOf(mins, secs);
    ParseClockJoin(ms, ps);
  }

  /** `formatTime` of a non-negative time is the clock of its whole minutes and remaining whole seconds. */
  lemma FormatTimeClock(x: real) returns (mins: nat, secs: nat)
    requires x >= 0.0
    ensures FormatTime(Seconds(x)) == Clock(mins, secs)
    ensures secs < 60 && 60 * mins + secs == x.Floor
  {
    ClockDigits(x);
    mins := (x / 60.0).Floor;
    secs := JsRem(x, 60.0).Floor;
  }

  /** Reading a formatted non-negative time back gives its whole seconds: the formatter loses only the fraction. */
  lemma FormatTimeRoundTrip(x: real)
    requires x >= 0.0
    ensures ParseClock(FormatTime(Seconds(x))) == Some(x.Floor)
  {
    var mins, secs := FormatTimeClock(x);
    ClockValue(mins, secs, x.Floor);
  }

  // ---------------------------------------------------------------------
  // coachingWindows: `scenes.map(...).sort((a, b) => a.freeze_at - b.freeze_at)`
  // ---------------------------------------------------------------------

  /** One coaching window from the stored analysis. */
  datatype CoachingWindow = CoachingWindow(id: int, freezeAt: real, title: string, text: string)

  predicate SortedByFreeze(ws: seq<CoachingWindow>) {
    forall i, j :: 0 <= i < j < |ws| ==> ws[i].freezeAt <= ws[j].freezeAt
  }

  /** Places `w` before the first window whose `freeze_at` is not smaller. */
  function InsertByFreeze(w: CoachingWindow, ws: seq<CoachingWindow>): (r: seq<CoachingWindow>)
    ensures |r| == |ws| + 1
    ensures multiset(r) == multiset(ws) + multiset{w}
    ensures r[0] == w || (|ws| > 0 && r[0] == ws[0])
  {
    if |ws| == 0 then [w]
    else if ws[0].freezeAt >= w.freezeAt then [w] + ws
    else
      assert ws == [ws[0]] + ws[1..];
      [ws[0]] + InsertByFreeze(w, ws[1..])
  }

  lemma {:induction false} InsertByFreezeSorted(w: CoachingWindow, ws: seq<CoachingWindow>)
    requires SortedByFreeze(ws)
    ensures SortedByFreeze(InsertByFreeze(w, ws))
  {
    if |ws| > 0 && ws[0].freezeAt < w.freezeAt {
      var rest := InsertByFreeze(w, ws[1..]);
      InsertByFreezeSorted(w, ws[1..]);
      assert ws[0].freezeAt <= rest[0].freezeAt by {
        if |ws| > 1 {
          assert ws[0].freezeAt <= ws[1].freezeAt;
        }
      }
      var r := [ws[0]] + rest;
      forall i, j | 0 <= i < j < |r| ensures r[i].freezeAt <= r[j].freezeAt {
        if i == 0 {
          assert r[j] == rest[j - 1];
          assert rest[0].freezeAt <= rest[j - 1].freezeAt by {
            if j > 1 {
              assert 0 < j - 1;
            }
          }
        } else {
          assert r[i] == rest[i - 1] && r[j] == rest[j - 1];
        }
      }
    }
  }

  /** The stable sort `Array.prototype.sort` performs with the `freeze_at` comparator. */
  function SortByFreeze(ws: seq<CoachingWindow>): (r: seq<CoachingWindow>)
    ensures |r| == |ws|
    ensures multiset(r) == multiset(ws)
    ensures SortedByFreeze(r)
  {
    if |ws| == 0 then []
    else
      assert ws == [ws[0]] + ws[1..];
      InsertByFreezeSorted(ws[0], SortByFreeze(ws[1..]));
      InsertByFreeze(ws[0], SortByFreeze(ws[1..]))
  }

  /** The windows of `ws` whose `freeze_at` is exactly `key`, in their order. */
  function WithFreeze(ws: seq<CoachingWindow>, key: real): (r: seq<CoachingWindow>)
    ensures |r| <= |ws|
  {
    if |ws| == 0 then []
    else if ws[0].freezeAt == key then [ws[0]] + WithFreeze(ws[1..], key)
    else WithFreeze(ws[1..], key)
  }

  lemma {:induction false} InsertKeepsTies(w: CoachingWindow, ws: seq<CoachingWindow>, key: real)
    ensures WithFreeze(InsertByFreeze(w, ws), key) ==
      if w.freezeAt == key then [w] + WithFreeze(ws, key) else WithFreeze(ws, key)
  {
    if |ws| == 0 {
    } else if ws[0].freezeAt >= w.freezeAt {
      assert ([w] + ws)[1..] == ws;
    } else {
      var rest := InsertByFreeze(w, ws[1..]);
      assert ([ws[0]] + rest)[1..] == rest;
      InsertKeepsTies(w, ws[1..], key);
    }
  }

  /** Sorting is stable: windows with equal `freeze_at` keep their relative order. */
  lemma {:induction false} SortByFreezeStable(ws: seq<CoachingWindow>, key: real)
    ensures WithFreeze(SortByFreeze(ws), key) == WithFreeze(ws, key)
  {
    if |ws| > 0 {
      SortByFreezeStable(ws[1..], key);
      InsertKeepsTies(ws[0], SortByFreeze(ws[1..]), key);
    }
  }

  /** `if (videoData.coaching && videoData.coaching.scenes)`: absent scenes leave the list empty. */
  function InitialWindows(scenes: Option<seq<CoachingWindow>>): (r: seq<CoachingWindow>)
    ensures SortedByFreeze(r)
    ensures scenes.None? ==> r == []
    ensures scenes.Some? ==> multiset(r) == multiset(scenes.value)
  {
    match scenes
    case None => []
    case Some(s) => SortByFreeze(s)
  }

  // ---------------------------------------------------------------------
  // checkForNewWindows
  // ---------------------------------------------------------------------

  function IdsOf(ws: seq<CoachingWindow>): set<int> {
    set k | 0 <= k < |ws| :: ws[k].id
  }

  predicate DistinctIds(ws: seq<CoachingWindow>) {
    forall i, j :: 0 <= i < j < |ws| ==> ws[i].id != ws[j].id
  }

  function Reversed(ws: seq<CoachingWindow>): (r: seq<CoachingWindow>)
    ensures |r| == |ws|
    ensures forall k :: 0 <= k < |ws| ==> r[k] == ws[|ws| - 1 - k]
  {
    if |ws| == 0 then [] else Reversed(ws[1..]) + [ws[0]]
  }

  lemma IdsOfCons(w: CoachingWindow, ws: seq<CoachingWindow>)
    ensures IdsOf([w] + ws) == {w.id} + IdsOf(ws)
  {
    var r := [w] + ws;
    assert r[0] == w;
    forall id | id in IdsOf(ws) ensures id in IdsOf(r) {
      var k :| 0 <= k < |ws| && ws[k].id == id;
      assert r[k + 1] == ws[k];
    }
    forall id | id in IdsOf(r) ensures id == w.id || id in IdsOf(ws) {
      var k :| 0 <= k < |r| && r[k].id == id;
      if k > 0 {
        assert r[k] == ws[k - 1];
      }
    }
  }

  lemma IdsOfAppend(a: seq<CoachingWindow>, b: seq<CoachingWindow>)
    ensures IdsOf(a + b) == IdsOf(a) + IdsOf(b)
  {
    var r := a + b;
    forall id | id in IdsOf(a) ensures id in IdsOf(r) {
      var k :| 0 <= k < |a| && a[k].id == id;
      assert r[k] == a[k];
    }
    forall id | id in IdsOf(b) ensures id in IdsOf(r) {
      var k :| 0 <= k < |b| && b[k].id == id;
      assert r[|a| + k] == b[k];
    }
    forall id | id in IdsOf(r) ensures id in IdsOf(a) || id in IdsOf(b) {
      var k :| 0 <= k < |r| && r[k].id == id;
      if k < |a| {
        assert r[k] == a[k];
      } else {
        assert r[k] == b[k - |a|];
      }
    }
  }

  lemma IdsOfReversed(ws: seq<CoachingWindow>)
    ensures IdsOf(Reversed(ws)) == IdsOf(ws)
  {
    var r := Reversed(ws);
    forall id | id in IdsOf(ws) ensures id in IdsOf(r) {
      var k :| 0 <= k < |ws| && ws[k].id == id;
      assert r[|ws| - 1 - k] == ws[k];
    }
    forall id | id in IdsOf(r) ensures id in IdsOf(ws) {
      var k :| 0 <= k < |r| && r[k].id == id;
      assert r[k] == ws[|ws| - 1 - k];
    }
  }

  /**
   * The windows one `forEach` pass displays, in order, at video time `t`
   * with `displayed` already shown: those reached and not yet shown, where a
   * window shown earlier in the same pass counts as shown.
   */
  function NewWindows(ws: seq<CoachingWindow>, t: real, displayed: set<int>): (r: seq<CoachingWindow>)
    ensures |r| <= |ws|
  {
    if |ws| == 0 then []
    else if t >= ws[0].freezeAt && ws[0].id !in displayed then [ws[0]] + NewWindows(ws[1..], t, displayed + {ws[0].id})
    else NewWindows(ws[1..], t, displayed)
  }

  /** Every window a pass shows has been reached, was not shown before, and is shown once. */
  lemma {:induction false} NewWindowsFresh(ws: seq<CoachingWindow>, t: real, displayed: set<int>)
    ensures var r := NewWindows(ws, t, displayed);
      (forall k :: 0 <= k < |r| ==> r[k] in ws && r[k].freezeAt <= t && r[k].id !in displayed)
      && DistinctIds(r)
  {
    if |ws| > 0 {
      var w := ws[0];
      if t >= w.freezeAt && w.id !in displayed {
        var rest := NewWindows(ws[1..], t, displayed + {w.id});
        NewWindowsFresh(ws[1..], t, displayed + {w.id});
        var r := [w] + rest;
        assert forall k :: 1 <= k < |r| ==> r[k] == rest[k - 1];
      } else {
        NewWindowsFresh(ws[1..], t, displayed);
      }
    }
  }

  /** After a pass, every reached window's id is displayed. */
  lemma {:induction false} NewWindowsComplete(ws: seq<CoachingWindow>, t: real, displayed: set<int>)
    ensures forall k :: 0 <= k < |ws| && ws[k].freezeAt <= t ==> ws[k].id in displayed + IdsOf(NewWindows(ws, t, displayed))
  {
    if |ws| > 0 {
      var w := ws[0];
      if t >= w.freezeAt && w.id !in displayed {
        var rest := NewWindows(ws[1..], t, displayed + {w.id});
        NewWindowsComplete(ws[1..], t, displayed + {w.id});
        var r := [w] + rest;
        IdsOfCons(w, rest);
      } else {
        NewWindowsComplete(ws[1..], t, displayed);
      }
      assert forall k :: 1 <= k < |ws| ==> ws[k] == ws[1..][k - 1];
    }
  }

  /** The windows of a pass over a sorted list come in `freeze_at` order, so the last one shown freezes latest. */
  lemma {:induction false} NewWindowsSorted(ws: seq<CoachingWindow>, t: real, displayed: set<int>)
    requires SortedByFreeze(ws)
    ensures SortedByFreeze(NewWindows(ws, t, displayed))
    ensures forall k :: 0 <= k < |NewWindows(ws, t, displayed)| ==> ws[0].freezeAt <= NewWindows(ws, t, displayed)[k].freezeAt
  {
    if |ws| > 0 {
      var w := ws[0];
      var d := if t >= w.freezeAt && w.id !in displayed then displayed + {w.id} else displayed;
      var rest := NewWindows(ws[1..], t, d);
      NewWindowsSorted(ws[1..], t, d);
      if |ws| > 1 {
        assert forall k :: 0 <= k < |rest| ==> ws[1].freezeAt <= rest[k].freezeAt;
        assert w.freezeAt <= ws[1].freezeAt;
      }
    }
  }

  /** A second pass at the same time, after the first, shows nothing. */
  lemma {:induction false} NewWindowsIdempotent(ws: seq<CoachingWindow>, t: real, displayed: set<int>)
    ensures NewWindows(ws, t, displayed + IdsOf(NewWindows(ws, t, displayed))) == []
  {
    NewWindowsComplete(ws, t, displayed);
    NoneLeft(ws, t, displayed + IdsOf(NewWindows(ws, t, displayed)));
  }

  /** A pass shows nothing when every reached window is already displayed. */
  lemma {:induction false} NoneLeft(ws: seq<CoachingWindow>, t: real, displayed: set<int>)
    requires forall k :: 0 <= k < |ws| && ws[k].freezeAt <= t ==> ws[k].id in displayed
    ensures NewWindows(ws, t, displayed) == []
  {
    if |ws| > 0 {
      assert forall k :: 1 <= k < |ws| ==> ws[k] == ws[1..][k - 1];
      NoneLeft(ws[1..], t, displayed);
    }
  }

  /** One step of a pass: the window at `i` is shown exactly when it is reached and not yet displayed. */
  lemma NewWindowsStep(ws: seq<CoachingWindow>, i: nat, t: real, displayed: set<int>)
    requires i < |ws|
    ensures NewWindows(ws[i..], t, displayed) ==
      if t >= ws[i].freezeAt && ws[i].id !in displayed
      then [ws[i]] + NewWindows(ws[i + 1..], t, displayed + {ws[i].id})
      else NewWindows(ws[i + 1..], t, displayed)
  {
    assert ws[i..][0] == ws[i];
    assert ws[i..][1..] == ws[i + 1..];
  }

  /** Before the first window a pass has shown nothing; a separate lemma only to keep `DisplayPass`'s proof cheap. */
  lemma PassStart(ws: seq<CoachingWindow>, t: real, d0: set<int>)
    ensures NewWindows(ws, t, d0) == [] + NewWindows(ws[0..], t, d0)
    ensures d0 == d0 + IdsOf([]) && Reversed([]) == []
  {
    assert ws[0..] == ws;
  }

  /** After the last window a pass has shown exactly what `NewWindows` selects; a separate lemma only to keep `DisplayPass`'s proof cheap. */
  lemma PassEnd(ws: seq<CoachingWindow>, i: int, t: real, d0: set<int>, news: seq<CoachingWindow>, displayed: set<int>)
    requires i == |ws|
    requires NewWindows(ws, t, d0) == news + NewWindows(ws[i..], t, displayed)
    ensures news == NewWindows(ws, t, d0)
  {
    assert ws[i..] == [];
  }

  /** The loop invariant of `checkForNewWindows` carried over a window that is shown. */
  lemma PassStepShown(ws: seq<CoachingWindow>, i: nat, t: real, d0: set<int>, news: seq<CoachingWindow>, displayed: set<int>)
    requires i < |ws| && t >= ws[i].freezeAt && ws[i].id !in displayed
    requires NewWindows(ws, t, d0) == news + NewWindows(ws[i..], t, displayed)
    requires displayed == d0 + IdsOf(news)
    ensures NewWindows(ws, t, d0) == (news + [ws[i]]) + NewWindows(ws[i + 1..], t, displayed + {ws[i].id})
    ensures displayed + {ws[i].id} == d0 + IdsOf(news + [ws[i]])
    ensures Reversed(news + [ws[i]]) == [ws[i]] + Reversed(news)
  {
    NewWindowsStep(ws, i, t, displayed);
    var rest := NewWindows(ws[i + 1..], t, displayed + {ws[i].id});
    assert NewWindows(ws[i..], t, displayed) == [ws[i]] + rest;
    assert news + ([ws[i]] + rest) == (news + [ws[i]]) + rest;
    IdsOfSnoc(news, ws[i]);
    ReversedSnoc(news, ws[i]);
  }

  /** The loop invariant of `checkForNewWindows` carried over a window that is passed by. */
  lemma PassStepSkipped(ws: seq<CoachingWindow>, i: nat, t: real, d0: set<int>, news: seq<CoachingWindow>, displayed: set<int>)
    requires i < |ws| && !(t >= ws[i].freezeAt && ws[i].id !in displayed)
    requires NewWindows(ws, t, d0) == news + NewWindows(ws[i..], t, displayed)
    ensures NewWindows(ws, t, d0) == news + NewWindows(ws[i + 1..], t, displayed)
  {
    NewWindowsStep(ws, i, t, displayed);
  }

  /** Appending a window adds its id. */
  lemma IdsOfSnoc(ws: seq<CoachingWindow>, w: CoachingWindow)
    ensures IdsOf(ws + [w]) == IdsOf(ws) + {w.id}
  {
    IdsOfAppend(ws, [w]);
    IdsOfCons(w, []);
    assert [w] + [] == [w];
  }

  /** The page's scheduling state: the module-level variables and the player and panel state they drive. */
  class CoachingPlayer {
    var windows: seq<CoachingWindow>       // coachingWindows
    var currentVideoTime: real
    var isPausedByWindow: bool
    var displayedWindows: set<int>
    var paused: bool                       // videoPlayer.paused
    var playerTime: real                   // videoPlayer.currentTime
    var panels: seq<CoachingWindow>        // the container's windows, newest first

    /** Windows are in `freeze_at` order, and the panels show each displayed id exactly once. */
    predicate Valid()
      reads this
    {
      SortedByFreeze(windows) && IdsOf(panels) == displayedWindows && DistinctIds(panels)
    }

    /** Page load: the sorted windows, nothing displayed, the player at 0 and not yet playing. */
    constructor(scenes: Option<seq<CoachingWindow>>)
      ensures Valid()
      ensures windows == InitialWindows(scenes)
      ensures currentVideoTime == 0.0 && !isPausedByWindow && displayedWindows == {}
      ensures paused && playerTime == 0.0 && panels == []
    {
      windows := InitialWindows(scenes);
      currentVideoTime := 0.0;
      isPausedByWindow := false;
      displayedWindows := {};
      paused := true;
      playerTime := 0.0;
      panels := [];
    }

    /** `displayCoachingWindow`: pause, seek to `freeze_at`, mark the pause as the window's, put the panel on top. */
    method DisplayCoachingWindow(w: CoachingWindow)
      modifies this
      ensures paused && playerTime == w.freezeAt && isPausedByWindow
      ensures panels == [w] + old(panels)
      ensures windows == old(windows) && currentVideoTime == old(currentVideoTime)
      ensures displayedWindows == old(displayedWindows)
    {
      paused := true;
      playerTime := w.freezeAt;
      isPausedByWindow := true;
      panels := [w] + panels;
    }

    /**
     * `checkForNewWindows`: nothing while paused by a window; otherwise
     * every window `NewWindows` selects is displayed, in order.
     */
    method CheckForNewWindows()
      requires Valid()
      modifies this
      ensures Valid()
      ensures windows == old(windows) && currentVideoTime == old(currentVideoTime)
      ensures old(isPausedByWindow) ==>
        isPausedByWindow && displayedWindows == old(displayedWindows) && panels == old(panels)
        && paused == old(paused) && playerTime == old(playerTime)
      ensures !old(isPausedByWindow) ==>
        var shown := NewWindows(windows, currentVideoTime, old(displayedWindows));
        && displayedWindows == old(displayedWindows) + IdsOf(shown)
        && panels == Reversed(shown) + old(panels)
        && isPausedByWindow == (|shown| > 0)
        && paused == (old(paused) || |shown| > 0)
        && playerTime == (if |shown| > 0 then shown[|shown| - 1].freezeAt else old(playerTime))
    {
      if isPausedByWindow {
        return;
      }
      ShownPanelsValid(windows, currentVideoTime, displayedWindows, panels);
      DisplayPass();
    }

    /**
     * The state a pass has reached after the first `i` windows, having shown
     * `news`, when it started from the displayed set `d0`, the panels
     * `panels0`, the pause flag `paused0` and the player time `time0`.
     */
    ghost predicate PassInvariant(i: int, d0: set<int>, news: seq<CoachingWindow>,
                                  panels0: seq<CoachingWindow>, paused0: bool, time0: real)
      reads this
    {
      && 0 <= i <= |windows|
      && NewWindows(windows, currentVideoTime, d0) == news + NewWindows(windows[i..], currentVideoTime, displayedWindows)
      && displayedWindows == d0 + IdsOf(news)
      && panels == Reversed(news) + panels0
      && isPausedByWindow == (|news| > 0)
      && paused == (paused0 || |news| > 0)
      && playerTime == (if |news| > 0 then news[|news| - 1].freezeAt else time0)
    }

    /** The `forEach` over `coachingWindows`, entered with no window pause in force. */
    method DisplayPass()
      requires !isPausedByWindow
      modifies this
      ensures windows == old(windows) && currentVideoTime == old(currentVideoTime)
      ensures PassInvariant(|windows|, old(displayedWindows), NewWindows(windows, currentVideoTime, old(displayedWindows)),
                            old(panels), old(paused), old(playerTime))
    {
      ghost var d0, panels0, paused0, time0 := displayedWindows, panels, paused, playerTime;
      ghost var news: seq<CoachingWindow> := [];
      PassStart(windows, currentVideoTime, d0);
      var i := 0;
      while i < |windows|
        invariant windows == old(windows) && currentVideoTime == old(currentVideoTime)
        invariant PassInvariant(i, d0, news, panels0, paused0, time0)
      {
        news := VisitWindow(i, d0, news, panels0, paused0, time0);
        i := i + 1;
      }
      PassEnd(windows, i, currentVideoTime, d0, news, displayedWindows);
    }

    /** One turn of the `forEach`: window `i` is displayed when it is reached and not yet displayed. */
    method VisitWindow(i: int, ghost d0: set<int>, ghost news: seq<CoachingWindow>,
                       ghost panels0: seq<CoachingWindow>, ghost paused0: bool, ghost time0: real)
        returns (ghost news': seq<CoachingWindow>)
      requires 0 <= i < |windows|
      requires PassInvariant(i, d0, news, panels0, paused0, time0)
      modifies this
      ensures windows == old(windows) && currentVideoTime == old(currentVideoTime)
      ensures PassInvariant(i + 1, d0, news', panels0, paused0, time0)
    {
      var w := windows[i];
      news' := news;
      if currentVideoTime >= w.freezeAt && w.id !in displayedWindows {
        PassStepShown(windows, i, currentVideoTime, d0, news, displayedWindows);
        DisplayCoachingWindow(w);
        displayedWindows := displayedWindows + {w.id};
        news' := news + [w];
      } else {
        PassStepSkipped(windows, i, currentVideoTime, d0, news, displayedWindows);
      }
    }

    /**
     * The `timeupdate` listener, fired once playback has reached `t`: the
     * page copies `videoPlayer.currentTime` and checks for new windows. Under
     * a window pause nothing else changes; otherwise the windows reached
     * and not yet displayed are shown in order, and the player stops at the
     * last of them.
     */
    method OnTimeUpdate(t: real)
      requires Valid()
      modifies this
      ensures Valid()
      ensures currentVideoTime == t && windows == old(windows)
      ensures old(isPausedByWindow) ==>
        isPausedByWindow && displayedWindows == old(displayedWindows) && panels == old(panels)
        && paused == old(paused) && playerTime == t
      ensures !old(isPausedByWindow) ==>
        var shown := NewWindows(windows, t, old(displayedWindows));
        && displayedWindows == old(displayedWindows) + IdsOf(shown)
        && panels == Reversed(shown) + old(panels)
        && isPausedByWindow == (|shown| > 0)
        && paused == (old(paused) || |shown| > 0)
        && playerTime == (if |shown| > 0 then shown[|shown| - 1].freezeAt else t)
      ensures !old(isPausedByWindow) ==>
        forall k :: 0 <= k < |windows| && windows[k].freezeAt <= t ==> windows[k].id in displayedWindows
    {
      playerTime := t;
      currentVideoTime := playerTime;
      CheckForNewWindows();
      if !old(isPausedByWindow) {
        NewWindowsComplete(windows, t, old(displayedWindows));
      }
    }

    /** The `play` listener: playback resumes and the window pause is over. */
    method OnPlay()
      requires Valid()
      modifies this
      ensures Valid()
      ensures !isPausedByWindow && !paused
      ensures windows == old(windows) && displayedWindows == old(displayedWindows) && panels == old(panels)
      ensures currentVideoTime == old(currentVideoTime) && playerTime == old(playerTime)
    {
      isPausedByWindow := false;
      paused := false;
    }

    /** The play/pause button: a paused player resumes (clearing the window pause); a playing one pauses. */
    method PlayPauseClick()
      requires Valid()
      modifies this
      ensures Valid()
      ensures paused == !old(paused)
      ensures isPausedByWindow == (old(isPausedByWindow) && !old(paused))
      ensures windows == old(windows) && displayedWindows == old(displayedWindows) && panels == old(panels)
      ensures currentVideoTime == old(currentVideoTime) && playerTime == old(playerTime)
    {
      if paused {
        isPausedByWindow := false;
        paused := false;
      } else {
        paused := true;
      }
    }

    /** A click on a displayed panel: seek to its `freeze_at` and hold there as a window pause. */
    method ClickPanel(k: nat)
      requires Valid() && k < |panels|
      modifies this
      ensures Valid()
      ensures playerTime == old(panels)[k].freezeAt && paused && isPausedByWindow
      ensures windows == old(windows) && displayedWindows == old(displayedWindows) && panels == old(panels)
      ensures currentVideoTime == old(currentVideoTime)
    {
      playerTime := panels[k].freezeAt;
      paused := true;
      isPausedByWindow := true;
    }
  }

  lemma ReversedSnoc(ws: seq<CoachingWindow>, w: CoachingWindow)
    ensures Reversed(ws + [w]) == [w] + Reversed(ws)
  {
    var a := Reversed(ws + [w]);
    var b := [w] + Reversed(ws);
    assert |a| == |b|;
    forall k | 0 <= k < |a|
      ensures a[k] == b[k]
    {
      if k > 0 {
        assert (ws + [w])[|ws| - k] == ws[|ws| - 1 - (k - 1)];
      }
    }
  }

  /** Prepending a pass's windows (newest first) to valid panels keeps every displayed id shown exactly once. */
  lemma ShownPanelsValid(ws: seq<CoachingWindow>, t: real, displayed: set<int>, panels: seq<CoachingWindow>)
    requires IdsOf(panels) == displayed && DistinctIds(panels)
    ensures var shown := NewWindows(ws, t, displayed);
      IdsOf(Reversed(shown) + panels) == displayed + IdsOf(shown) && DistinctIds(Reversed(shown) + panels)
  {
    var shown := NewWindows(ws, t, displayed);
    NewWindowsFresh(ws, t, displayed);
    IdsOfReversed(shown);
    IdsOfAppend(Reversed(shown), panels);
    DistinctPrepend(shown, panels);
  }

  lemma DistinctPrepend(shown: seq<CoachingWindow>, panels: seq<CoachingWindow>)
    requires DistinctIds(shown) && DistinctIds(panels)
    requires forall k :: 0 <= k < |shown| ==> shown[k].id !in IdsOf(panels)
    ensures DistinctIds(Reversed(shown) + panels)
  {
    var rs := Reversed(shown);
    var all := rs + panels;
    forall i, j | 0 <= i < j < |all| ensures all[i].id != all[j].id {
      if j < |rs| {
        assert all[i] == shown[|shown| - 1 - i] && all[j] == shown[|shown| - 1 - j];
      } else if i >= |rs| {
        assert all[i] == panels[i - |rs|] && all[j] == panels[j - |rs|];
      } else {
        assert all[i] == shown[|shown| - 1 - i];
        assert all[j] == panels[j - |rs|];
      }
    }
  }
}
