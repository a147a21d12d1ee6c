/**
 * Sequences of window messages: what the dispatch state machine promises
 * over many calls of `WndProc` (MainWindow.xaml.cs:56-135), and whole scans
 * worked through on concrete messages: roles in first-seen order, counts
 * kept per device, the match message after the second scan only, and
 * Enter on an empty buffer.
 */
module Traces {
  import opened Wrappers
  import opened History
  import opened Dispatch

  /** The state after the messages `es`, delivered one at a time in order. */
  function Run(s: State, es: seq<RawEvent>): (t: State)
    ensures s.box1 <= t.box1 && s.box2 <= t.box2
    decreases |es|
  {
    if es == [] then s else Run(Step(s, es[0]), es[1..])
  }

  /** A key press on `device` that the keyboard layout translates to `ch`. */
  function KeyDown(device: Handle, ch: char): RawEvent
  {
    RawEvent(WM_INPUT, true, RIM_TYPEKEYBOARD, device, WM_KEYDOWN, ch)
  }

  /** The key presses that type `text` on `device`. */
  function Typing(device: Handle, text: string): (es: seq<RawEvent>)
    ensures |es| == |text|
  {
    if text == [] then [] else [KeyDown(device, text[0])] + Typing(device, text[1..])
  }

  /** Text that a scanner sends before Enter: no terminator and no untranslatable key. */
  predicate IsScanText(text: string)
  {
    forall i :: 0 <= i < |text| ==> text[i] != Terminator && text[i] != NoChar
  }

  /** Running two batches of messages is running their concatenation. */
  lemma {:induction false} RunConcat(s: State, a: seq<RawEvent>, b: seq<RawEvent>)
    ensures Run(s, a + b) == Run(Run(s, a), b)
    decreases |a|
  {
    if a == [] {
      assert a + b == b;
    } else {
      assert (a + b)[0] == a[0];
      assert (a + b)[1..] == a[1..] + b;
      RunConcat(Step(s, a[0]), a[1..], b);
    }
  }

  /** The invariant holds after any sequence of messages. */
  lemma {:induction false} RunInv(s: State, es: seq<RawEvent>)
    requires Inv(s)
    ensures Inv(Run(s, es))
    decreases |es|
  {
    if es != [] {
      StepInv(s, es[0]);
      RunInv(Step(s, es[0]), es[1..]);
    }
  }

  /**
   * Role bindings are permanent over any sequence of messages: a bound role
   * keeps its handle, and a device that holds a role keeps it
   * (MainWindow.xaml.cs:75-78).
   */
  lemma {:induction false} RunRolesStable(s: State, es: seq<RawEvent>, d: Handle)
    requires Inv(s)
    ensures s.device1 != None ==> Run(s, es).device1 == s.device1
    ensures s.device2 != None ==> Run(s, es).device2 == s.device2
    ensures RoleOf(s, d) != Unassigned ==> RoleOf(Run(s, es), d) == RoleOf(s, d)
    decreases |es|
  {
    if es != [] {
      StepRoles(s, es[0]);
      StepRoleStable(s, es[0], d);
      StepInv(s, es[0]);
      RunRolesStable(Step(s, es[0]), es[1..], d);
    }
  }

  /**
   * Histories are append-only: over any sequence of messages, each device's
   * history is extended at its end and never shortened or rewritten.
   */
  lemma {:induction false} RunHistoriesGrow(s: State, es: seq<RawEvent>, d: Handle)
    ensures |HistoryOf(s, d)| <= |HistoryOf(Run(s, es), d)|
    ensures HistoryOf(s, d) == HistoryOf(Run(s, es), d)[..|HistoryOf(s, d)|]
    decreases |es|
  {
    if es != [] {
      var t := Step(s, es[0]);
      if d == es[0].device && IsTypedChar(es[0]) && es[0].ch == Terminator {
        StepCompletesScan(s, es[0]);
      } else if d != es[0].device {
        StepOnlyOwnDevice(s, es[0], d);
      } else if IsTypedChar(es[0]) {
        StepAppendsChar(s, es[0]);
      } else if IsKeyboardInput(es[0]) {
        StepNoChar(s, es[0]);
      }
      assert HistoryOf(s, d) == HistoryOf(t, d)[..|HistoryOf(s, d)|];
      RunHistoriesGrow(t, es[1..], d);
    }
  }

  /** Whether `e` is Enter on `device`. */
  predicate IsEnterOn(e: RawEvent, device: Handle)
  {
    IsTypedChar(e) && e.device == device && e.ch == Terminator
  }

  /** No message of `es` is Enter on `device`. */
  predicate NoEnterOn(es: seq<RawEvent>, device: Handle)
    decreases |es|
  {
    es == [] || (!IsEnterOn(es[0], device) && NoEnterOn(es[1..], device))
  }

  /** The characters typed on `device` by the messages `es`, in order. */
  function Typed(es: seq<RawEvent>, device: Handle): (text: string)
    ensures |text| <= |es|
    decreases |es|
  {
    if es == [] then []
    else (if IsTypedChar(es[0]) && es[0].device == device then [es[0].ch] else []) + Typed(es[1..], device)
  }

  /** What one message does to the buffer and the history of one device. */
  lemma StepOnDevice(s: State, e: RawEvent, d: Handle)
    ensures !IsEnterOn(e, d) ==>
              BufferOf(Step(s, e), d) == BufferOf(s, d) + (if IsTypedChar(e) && e.device == d then [e.ch] else [])
              && HistoryOf(Step(s, e), d) == HistoryOf(s, d)
    ensures IsEnterOn(e, d) ==>
              BufferOf(Step(s, e), d) == "" && HistoryOf(Step(s, e), d) == HistoryOf(s, d) + [BufferOf(s, d)]
  {
    if d != e.device {
      StepOnlyOwnDevice(s, e, d);
    } else if IsEnterOn(e, d) {
      StepCompletesScan(s, e);
    } else if IsTypedChar(e) {
      StepAppendsChar(s, e);
    } else if IsKeyboardInput(e) {
      StepNoChar(s, e);
    }
  }

  /**
   * Line assembly over any interleaving of devices (MainWindow.xaml.cs:81-82,
   * 117-121): until Enter on `d`, the buffer of `d` is its old contents
   * followed by exactly the characters typed on `d`, in order, whatever the
   * other devices send meanwhile and whatever keys are released, and the
   * history of `d` is unchanged.
   */
  lemma {:induction false} RunAssemblesLine(s: State, es: seq<RawEvent>, d: Handle)
    requires NoEnterOn(es, d)
    ensures BufferOf(Run(s, es), d) == BufferOf(s, d) + Typed(es, d)
    ensures HistoryOf(Run(s, es), d) == HistoryOf(s, d)
    decreases |es|
  {
    if es == [] {
      assert BufferOf(s, d) + [] == BufferOf(s, d);
    } else {
      var rest := es[1..];
      var first: string := if IsTypedChar(es[0]) && es[0].device == d then [es[0].ch] else [];
      var t := RunFirstOnDevice(s, es, d);
      RunAssemblesLine(t, rest, d);
      AppendAssoc(BufferOf(s, d), first, Typed(rest, d));
    }
  }

  /** Concatenation is associative. */
  lemma AppendAssoc<T>(a: seq<T>, b: seq<T>, c: seq<T>)
    ensures (a + b) + c == a + (b + c)
  {
  }

  /** The first of several messages, seen from one device other than by Enter on it. */
  lemma RunFirstOnDevice(s: State, es: seq<RawEvent>, d: Handle) returns (t: State)
    requires es != [] && !IsEnterOn(es[0], d)
    ensures Run(s, es) == Run(t, es[1..])
    ensures BufferOf(t, d) == BufferOf(s, d) + (if IsTypedChar(es[0]) && es[0].device == d then [es[0].ch] else [])
    ensures HistoryOf(t, d) == HistoryOf(s, d)
  {
    t := Step(s, es[0]);
    StepOnDevice(s, es[0], d);
  }

  /**
   * Enter on `d` after such messages records exactly the assembled line as
   * one scan and empties the buffer (MainWindow.xaml.cs:90-98).
   */
  lemma RunScansLine(s: State, es: seq<RawEvent>, d: Handle)
    requires NoEnterOn(es, d)
    ensures var t := Run(s, es + [Enter(d)]);
            BufferOf(t, d) == "" && HistoryOf(t, d) == HistoryOf(s, d) + [BufferOf(s, d) + Typed(es, d)]
  {
    RunConcat(s, es, [Enter(d)]);
    RunAssemblesLine(s, es, d);
    var u := Run(s, es);
    StepOnDevice(u, Enter(d), d);
    assert Run(u, [Enter(d)]) == Step(u, Enter(d));
  }

  /**
   * Whether `e`, in state `s`, completes a scan of `code` on `device` and
   * shows the match message for it in the device's list box.
   */
  predicate ShowsMatch(s: State, e: RawEvent, device: Handle, code: string)
  {
    IsEnterOn(e, device) && BufferOf(s, device) == code
    && MatchMessage(code) in ShownFor(s, Step(s, e), device)
  }

  /** How many of the messages `es`, run from `s`, show the match message for `code` on `device`. */
  function MatchesShown(s: State, es: seq<RawEvent>, device: Handle, code: string): (n: nat)
    ensures n <= |es|
    decreases |es|
  {
    if es == [] then 0
    else (if ShowsMatch(s, es[0], device, code) then 1 else 0) + MatchesShown(Step(s, es[0]), es[1..], device, code)
  }

  /** `code` is in the history of `device` at least twice, and the device has a list box. */
  predicate Confirmed(s: State, device: Handle, code: string)
  {
    Count(HistoryOf(s, device), code) >= 2 && RoleOf(s, device) != Unassigned
  }

  /**
   * One message shows the match message for `code` on `d` exactly when it
   * makes the code confirmed there; every other message leaves that status
   * as it was (MainWindow.xaml.cs:95-115).
   */
  lemma StepShowsMatch(s: State, e: RawEvent, d: Handle, code: string)
    requires Inv(s)
    ensures ShowsMatch(s, e, d, code) ==> !Confirmed(s, d, code) && Confirmed(Step(s, e), d, code)
    ensures !ShowsMatch(s, e, d, code) ==> (Confirmed(s, d, code) <==> Confirmed(Step(s, e), d, code))
  {
    var t := Step(s, e);
    var history := HistoryOf(s, d);
    StepOnDevice(s, e, d);
    if IsEnterOn(e, d) {
      CountAppend(history, BufferOf(s, d), code);
    }
    assert Count(HistoryOf(t, d), code) == Count(history, code) + (if IsEnterOn(e, d) && BufferOf(s, d) == code then 1 else 0);
    if Count(history, code) >= 1 {
      assert d in s.buffers;
      StepRoleStable(s, e, d);
    }
    if IsEnterOn(e, d) && BufferOf(s, d) == code {
      StepRoutesScan(s, e);
      MatchMessageDiffers(code);
      assert ShownFor(s, t, d) == if RoleOf(t, d) == Unassigned then [] else ScanItems(history, code);
    }
  }

  /**
   * Over any sequence of messages, the number of match messages shown for
   * `code` on `d` is the change in whether `code` is confirmed there.
   */
  lemma {:induction false} RunMatchesShown(s: State, es: seq<RawEvent>, d: Handle, code: string)
    requires Inv(s)
    ensures MatchesShown(s, es, d, code) + (if Confirmed(s, d, code) then 1 else 0)
            == (if Confirmed(Run(s, es), d, code) then 1 else 0)
    decreases |es|
  {
    if es != [] {
      StepShowsMatch(s, es[0], d, code);
      StepInv(s, es[0]);
      RunMatchesShown(Step(s, es[0]), es[1..], d, code);
    }
  }

  /**
   * From a new window, the match message for a code is shown at most once per
   * device over any sequence of messages, and it has been shown exactly when
   * the device has a list box and the code is now in its history at least
   * twice (MainWindow.xaml.cs:107-115).
   */
  lemma MatchShownOnce(es: seq<RawEvent>, d: Handle, code: string)
    ensures MatchesShown(Initial, es, d, code) <= 1
    ensures MatchesShown(Initial, es, d, code) == 1 <==> Confirmed(Run(Initial, es), d, code)
  {
    RunMatchesShown(Initial, es, d, code);
  }

  /**
   * Line assembly: typing scan text on a device appends exactly that text,
   * in order, to the device's buffer, and changes no history and no list box
   * (MainWindow.xaml.cs:117-121).
   */
  lemma {:induction false} TypingAppends(s: State, device: Handle, text: string)
    requires IsScanText(text)
    ensures text != [] ==> Run(s, Typing(device, text)).buffers == s.buffers[device := BufferOf(s, device) + text]
    ensures text == [] ==> Run(s, Typing(device, text)).buffers == s.buffers
    ensures Run(s, Typing(device, text)).histories == s.histories
    ensures Run(s, Typing(device, text)).box1 == s.box1 && Run(s, Typing(device, text)).box2 == s.box2
    ensures text != [] ==> Run(s, Typing(device, text)).device1 == Register(s, device).device1
                           && Run(s, Typing(device, text)).device2 == Register(s, device).device2
    ensures text == [] ==> Run(s, Typing(device, text)) == s
    decreases |text|
  {
    if text != [] {
      var rest := text[1..];
      assert IsScanText(rest) by {
        forall i | 0 <= i < |rest| ensures rest[i] != Terminator && rest[i] != NoChar {
          assert rest[i] == text[i + 1];
        }
      }
      var t := TypingFirst(s, device, text);
      TypingAppends(t, device, rest);
      var before := BufferOf(s, device);
      if rest == [] {
        assert text == [text[0]];
      } else {
        assert BufferOf(t, device) == before + [text[0]];
        assert [text[0]] + rest == text;
        AppendAssoc(before, [text[0]], rest);
        UpdateTwice(s.buffers, device, before + [text[0]], before + text);
      }
    }
  }

  /** A second update of the same key overrides the first. */
  lemma UpdateTwice<K, V>(m: map<K, V>, k: K, v: V, w: V)
    ensures m[k := v][k := w] == m[k := w]
  {
  }

  /** The first key press of `text`, and the state it leads to. */
  lemma TypingFirst(s: State, device: Handle, text: string) returns (t: State)
    requires text != [] && text[0] != Terminator && text[0] != NoChar
    ensures Run(s, Typing(device, text)) == Run(t, Typing(device, text[1..]))
    ensures t.buffers == s.buffers[device := BufferOf(s, device) + [text[0]]]
    ensures t.histories == s.histories && t.box1 == s.box1 && t.box2 == s.box2
    ensures t.device1 == Register(s, device).device1 && t.device2 == Register(s, device).device2
  {
    var e := KeyDown(device, text[0]);
    t := Step(s, e);
    StepAppendsChar(s, e);
    assert Typing(device, text) == [e] + Typing(device, text[1..]);
  }

  /**
   * A whole scan: typing scan text on a device and pressing Enter leaves the
   * device's buffer empty and appends to its history the old buffer
   * contents followed by the text (MainWindow.xaml.cs:90-98, 117-121).
   */
  lemma ScanShown(s: State, device: Handle, text: string)
    requires IsScanText(text)
    ensures var t := Run(s, Typing(device, text) + [Enter(device)]);
            var code := BufferOf(s, device) + text;
            var shown := ScanItems(HistoryOf(s, device), code);
            && t.buffers == s.buffers[device := ""]
            && t.histories == s.histories[device := HistoryOf(s, device) + [code]]
            && t.device1 == Register(s, device).device1 && t.device2 == Register(s, device).device2
            && match RoleOf(t, device)
               case Scanner1 => t.box1 == s.box1 + shown && t.box2 == s.box2
               case Scanner2 => t.box1 == s.box1 && t.box2 == s.box2 + shown
               case Unassigned => t.box1 == s.box1 && t.box2 == s.box2
  {
    var typed := Run(s, Typing(device, text));
    TypingAppends(s, device, text);
    RunConcat(s, Typing(device, text), [Enter(device)]);
    StepCompletesScan(typed, Enter(device));
    StepRoutesScan(typed, Enter(device));
    StepRoles(typed, Enter(device));
    assert Run(typed, [Enter(device)]) == Step(typed, Enter(device));
    assert HistoryOf(typed, device) == HistoryOf(s, device);
    assert BufferOf(typed, device) == BufferOf(s, device) + text;
    assert typed.box1 == s.box1 && typed.box2 == s.box2;
  }

  /** Enter on `device`. */
  function Enter(device: Handle): RawEvent
  {
    KeyDown(device, Terminator)
  }

  /** A key release on `device`: a keyboard message that is not a key press. */
  function KeyUp(device: Handle): RawEvent
  {
    RawEvent(WM_INPUT, true, RIM_TYPEKEYBOARD, device, 0x0101, NoChar)
  }

  /**
   * Roles are handed out in first-seen order and kept: messages from A, B,
   * A, C give A the first list box, B the second, and C none, even when the
   * messages are key releases (MainWindow.xaml.cs:75-78, 85).
   */
  lemma RolesInFirstSeenOrder(a: Handle, b: Handle, c: Handle)
    requires a != b && b != c && a != c
    ensures var s1 := Step(Initial, KeyUp(a));
            var s2 := Step(s1, KeyUp(b));
            var s3 := Step(s2, KeyUp(a));
            var s4 := Step(s3, KeyUp(c));
            RoleOf(s1, a) == Scanner1 && RoleOf(s2, b) == Scanner2
            && RoleOf(s3, a) == Scanner1 && RoleOf(s4, c) == Unassigned
            && s4.buffers == map[a := "", b := "", c := ""]
  {
  }

  /** A whole scan of `text` from an empty buffer on the device that holds, or takes, the first role. */
  lemma ScanAsFirst(s: State, h: Handle, text: string)
    requires IsScanText(text) && BufferOf(s, h) == ""
    requires s.device1 == None || s.device1 == Some(h)
    ensures var t := Run(s, Typing(h, text) + [Enter(h)]);
            t.device1 == Some(h) && t.device2 == s.device2
            && t.buffers == s.buffers[h := ""]
            && t.histories == s.histories[h := HistoryOf(s, h) + [text]]
            && t.box1 == s.box1 + ScanItems(HistoryOf(s, h), text) && t.box2 == s.box2
  {
    ScanShown(s, h, text);
    assert BufferOf(s, h) + text == text;
  }

  /** A whole scan of `text` from an empty buffer on the device that holds, or takes, the second role. */
  lemma ScanAsSecond(s: State, h: Handle, text: string)
    requires IsScanText(text) && BufferOf(s, h) == ""
    requires s.device1 != None && s.device1 != Some(h) && (s.device2 == None || s.device2 == Some(h))
    ensures var t := Run(s, Typing(h, text) + [Enter(h)]);
            t.device1 == s.device1 && t.device2 == Some(h)
            && t.buffers == s.buffers[h := ""]
            && t.histories == s.histories[h := HistoryOf(s, h) + [text]]
            && t.box1 == s.box1 && t.box2 == s.box2 + ScanItems(HistoryOf(s, h), text)
  {
    ScanShown(s, h, text);
    assert BufferOf(s, h) + text == text;
  }

  /**
   * The same code scanned once on each of two devices is shown once in each
   * list box and confirmed in neither: counts are per device
   * (MainWindow.xaml.cs:95-115).
   */
  lemma NoMatchAcrossDevices(h1: Handle, h2: Handle, code: string)
    requires h1 != h2 && IsScanText(code)
    ensures var t := Run(Initial, Typing(h1, code) + [Enter(h1)] + Typing(h2, code) + [Enter(h2)]);
            t.box1 == [code] && t.box2 == [code]
            && t.histories == map[h1 := [code], h2 := [code]]
  {
    var scan1, scan2 := Typing(h1, code) + [Enter(h1)], Typing(h2, code) + [Enter(h2)];
    assert Typing(h1, code) + [Enter(h1)] + Typing(h2, code) + [Enter(h2)] == scan1 + scan2;
    RunConcat(Initial, scan1, scan2);
    var s1 := Run(Initial, scan1);
    ScanAsFirst(Initial, h1, code);
    assert Initial.histories == map[] && HistoryOf(Initial, h1) == [] && [] + [code] == [code];
    assert ScanItems([], code) == [code];
    assert s1.histories == map[h1 := [code]] && s1.box1 == [code] && s1.box2 == [];
    ScanAsSecond(s1, h2, code);
    assert HistoryOf(s1, h2) == [];
  }

  /**
   * A code new to a device, scanned three times on it, is shown each time
   * and confirmed once, right after the second scan
   * (MainWindow.xaml.cs:107-115).
   */
  lemma MatchOnSecondScanOnly(s: State, h: Handle, code: string)
    requires IsScanText(code) && BufferOf(s, h) == "" && code !in HistoryOf(s, h)
    requires s.device1 == None || s.device1 == Some(h)
    ensures var scan := Typing(h, code) + [Enter(h)];
            var t1 := Run(s, scan);
            var t2 := Run(t1, scan);
            var t3 := Run(t2, scan);
            t1.box1 == s.box1 + [code]
            && t2.box1 == t1.box1 + [code, MatchMessage(code)]
            && t3.box1 == t2.box1 + [code]
            && t3.box2 == s.box2
  {
    var scan := Typing(h, code) + [Enter(h)];
    var history := HistoryOf(s, h);
    var t1 := Run(s, scan);
    ScanAsFirst(s, h, code);
    assert HistoryOf(t1, h) == history + [code];
    var t2 := Run(t1, scan);
    ScanAsFirst(t1, h, code);
    CountAppend(history, code, code);
    assert HistoryOf(t2, h) == history + [code] + [code];
    ScanAsFirst(t2, h, code);
    CountAppend(history + [code], code, code);
  }

  /**
   * Enter on an empty buffer completes the empty scan, which is recorded
   * and confirmed like any other code (MainWindow.xaml.cs:90-115).
   */
  lemma EmptyScansMatch(s: State, h: Handle)
    requires BufferOf(s, h) == "" && "" !in HistoryOf(s, h)
    requires s.device1 == None || s.device1 == Some(h)
    ensures var t1 := Step(s, Enter(h));
            var t2 := Step(t1, Enter(h));
            t1.box1 == s.box1 + [""] && t2.box1 == t1.box1 + ["", MatchMessage("")]
            && HistoryOf(t2, h) == HistoryOf(s, h) + ["", ""] && BufferOf(t2, h) == ""
  {
    var t1 := EnterAsFirst(s, h);
    var t2 := EnterAsFirst(t1, h);
    CountAppend(HistoryOf(s, h), "", "");
    AppendAssoc(HistoryOf(s, h), [""], [""]);
  }

  /** Enter on the device that holds, or takes, the first role. */
  lemma EnterAsFirst(s: State, h: Handle) returns (t: State)
    requires s.device1 == None || s.device1 == Some(h)
    ensures t == Step(s, Enter(h))
    ensures t.box1 == s.box1 + ScanItems(HistoryOf(s, h), BufferOf(s, h)) && t.box2 == s.box2
    ensures HistoryOf(t, h) == HistoryOf(s, h) + [BufferOf(s, h)] && BufferOf(t, h) == ""
    ensures t.device1 == Some(h)
  {
    t := Step(s, Enter(h));
    StepCompletesScan(s, Enter(h));
    StepRoutesScan(s, Enter(h));
    StepRoles(s, Enter(h));
  }
}
