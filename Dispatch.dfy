/**
 * The raw-keyboard demultiplexing state machine of the scanner window
 * (`MainWindow.WndProc`, MainWindow.xaml.cs:56-135), as a function from the
 * state before one window message to the state after it.
 *
 * The state is the window's four fields (MainWindow.xaml.cs:27-32) plus the
 * item lists of the two list boxes `Scanner1Box` and `Scanner2Box`.
 * `Step` is the reference definition that `RawInputScanner.MainWindow.WndProc`
 * is proved against; the lemmas below state what one message does.
 */
module Dispatch {
  import opened Wrappers
  import opened History

  /** An opaque device handle (`IntPtr` in the source); only equality is used. */
  type Handle = int

  /** The window message that carries raw input. */
  const WM_INPUT: int := 0x00FF
  /** The raw input header type of a keyboard. */
  const RIM_TYPEKEYBOARD: int := 1
  /** The keyboard message of a key press. */
  const WM_KEYDOWN: int := 0x0100

  /** The translated character that stands for "no character". */
  const NoChar: char := '\0'
  /** The key that completes a scan (Enter). */
  const Terminator: char := '\r'
  /** The text put in front of a confirmed duplicate. */
  const MatchPrefix: string := "✔ 一致確認: "

  /**
   * One window message as the hook sees it.
   * `sizeMatches` is whether the second `GetRawInputData` call returned the
   * size the first one reported; `ch` is what `KeyToChar` translates the key
   * to (`NoChar` when it gives nothing), which depends on the keyboard layout
   * of the host and is therefore an input here.
   */
  datatype RawEvent = RawEvent(
    windowMessage: int,
    sizeMatches: bool,
    inputType: int,
    device: Handle,
    keyMessage: int,
    ch: char)

  /** The window's state. */
  datatype State = State(
    buffers: map<Handle, string>,
    histories: map<Handle, seq<string>>,
    device1: Option<Handle>,
    device2: Option<Handle>,
    box1: seq<string>,
    box2: seq<string>)

  /** Which list box a device's output goes to. */
  datatype Role = Scanner1 | Scanner2 | Unassigned

  /** The state of a freshly opened window. */
  const Initial: State := State(map[], map[], None, None, [], [])

  /** The message shown after a scan that has now been seen exactly twice. */
  function MatchMessage(code: string): string
  {
    MatchPrefix + code
  }

  /**
   * The items a completed scan of `code` adds to its list box, given the
   * device's history before the scan: the code, then the match message if
   * the code was in that history exactly once.
   */
  function ScanItems(history: seq<string>, code: string): seq<string>
  {
    if Count(history, code) == 1 then [code, MatchMessage(code)] else [code]
  }

  /** A message that reaches the keyboard branch (MainWindow.xaml.cs:58, 66, 70). */
  predicate IsKeyboardInput(e: RawEvent)
  {
    e.windowMessage == WM_INPUT && e.sizeMatches && e.inputType == RIM_TYPEKEYBOARD
  }

  /** A keyboard message that is a key press translated to a character. */
  predicate IsTypedChar(e: RawEvent)
  {
    IsKeyboardInput(e) && e.keyMessage == WM_KEYDOWN && e.ch != NoChar
  }

  function BufferOf(s: State, device: Handle): string
  {
    if device in s.buffers then s.buffers[device] else ""
  }

  function HistoryOf(s: State, device: Handle): seq<string>
  {
    if device in s.histories then s.histories[device] else []
  }

  /** The role of a device: the list box it is routed to (MainWindow.xaml.cs:101-104). */
  function RoleOf(s: State, device: Handle): Role
  {
    if s.device1 == Some(device) then Scanner1
    else if s.device2 == Some(device) then Scanner2
    else Unassigned
  }

  /**
   * The role fields after a keyboard message from `device`
   * (MainWindow.xaml.cs:75-78): the first handle seen becomes `device1`, the
   * next different one `device2`. A bound role is never rebound, only
   * `device` can be bound, and `device` is left without a role only when
   * both roles were already held by other devices.
   */
  function Register(s: State, device: Handle): (r: State)
    ensures r.buffers == s.buffers && r.histories == s.histories
    ensures r.box1 == s.box1 && r.box2 == s.box2
    ensures s.device1 != None ==> r.device1 == s.device1
    ensures s.device2 != None ==> r.device2 == s.device2
    ensures r.device1 != s.device1 ==> r.device1 == Some(device)
    ensures r.device2 != s.device2 ==> r.device2 == Some(device)
    ensures (RoleOf(r, device) == Unassigned)
        <==> (s.device1 != None && s.device2 != None && RoleOf(s, device) == Unassigned)
  {
    if s.device1 == None then s.(device1 := Some(device))
    else if s.device2 == None && Some(device) != s.device1 then s.(device2 := Some(device))
    else s
  }

  /**
   * An empty buffer for a device that has none yet (MainWindow.xaml.cs:81-82):
   * afterwards the device has a buffer, an existing buffer keeps its contents,
   * and nothing else changes.
   */
  function EnsureBuffer(s: State, device: Handle): (r: State)
    ensures device in r.buffers
    ensures r.buffers == s.buffers[device := BufferOf(s, device)]
    ensures r.histories == s.histories && r.device1 == s.device1 && r.device2 == s.device2
    ensures r.box1 == s.box1 && r.box2 == s.box2
  {
    if device in s.buffers then s else s.(buffers := s.buffers[device := ""])
  }

  /**
   * Appends `items` to the list box of the device's role, if it has one
   * (MainWindow.xaml.cs:101-104, 111-114). Device state is untouched, the
   * boxes only grow, the items go to the end of `Scanner1Box` for `device1`
   * and of `Scanner2Box` for `device2`, and a device without a role shows
   * nothing.
   */
  function Route(s: State, device: Handle, items: seq<string>): (r: State)
    ensures r.buffers == s.buffers && r.histories == s.histories
    ensures r.device1 == s.device1 && r.device2 == s.device2
    ensures s.box1 <= r.box1 && s.box2 <= r.box2
    ensures |r.box1| + |r.box2| == |s.box1| + |s.box2| + (if RoleOf(s, device) == Unassigned then 0 else |items|)
    ensures RoleOf(s, device) == Unassigned ==> r == s
    ensures RoleOf(s, device) == Scanner1 ==> r.box1 == s.box1 + items && r.box2 == s.box2
    ensures RoleOf(s, device) == Scanner2 ==> r.box1 == s.box1 && r.box2 == s.box2 + items
  {
    match RoleOf(s, device)
    case Scanner1 => s.(box1 := s.box1 + items)
    case Scanner2 => s.(box2 := s.box2 + items)
    case Unassigned => s
  }

  /**
   * Enter on `device` (MainWindow.xaml.cs:90-115): the buffer becomes the
   * completed code and is cleared, the code is added to the device's history,
   * shown in its list box, and followed there by the match message when the
   * history now holds the code exactly twice. The roles are untouched and
   * the list boxes only grow.
   */
  function CompleteScan(s: State, device: Handle): (r: State)
    ensures r.buffers == s.buffers[device := ""]
    ensures r.histories == s.histories[device := HistoryOf(s, device) + [BufferOf(s, device)]]
    ensures r.device1 == s.device1 && r.device2 == s.device2
    ensures s.box1 <= r.box1 && s.box2 <= r.box2
  {
    var code := BufferOf(s, device);
    var history := HistoryOf(s, device) + [code];
    var shown := if Count(history, code) == 2 then [code, MatchMessage(code)] else [code];
    Route(s.(buffers := s.buffers[device := ""], histories := s.histories[device := history]), device, shown)
  }

  /**
   * The state after one window message (MainWindow.xaml.cs:58-124). The list
   * boxes are append-only, and one message adds at most two items to them.
   */
  function Step(s: State, e: RawEvent): (t: State)
    ensures s.box1 <= t.box1 && s.box2 <= t.box2
    ensures |t.box1| + |t.box2| <= |s.box1| + |s.box2| + 2
  {
    if !IsKeyboardInput(e) then s
    else
      var s1 := EnsureBuffer(Register(s, e.device), e.device);
      if e.keyMessage != WM_KEYDOWN || e.ch == NoChar then s1
      else if e.ch == Terminator then CompleteScan(s1, e.device)
      else s1.(buffers := s1.buffers[e.device := s1.buffers[e.device] + [e.ch]])
  }

  /**
   * What every reachable state satisfies: the second role is bound only after
   * the first and to a different handle, every device with a role or a
   * history has a buffer, and a device with a buffer but no role exists only
   * once both roles are held.
   */
  predicate Inv(s: State)
  {
    (s.device2 != None ==> s.device1 != None && s.device1 != s.device2)
    && (s.device1 != None ==> s.device1.value in s.buffers)
    && (s.device2 != None ==> s.device2.value in s.buffers)
    && (forall d :: d in s.histories ==> d in s.buffers)
    && (forall d :: d in s.buffers && RoleOf(s, d) == Unassigned ==> s.device1 != None && s.device2 != None)
  }

  /** Every message keeps the invariant. */
  lemma StepInv(s: State, e: RawEvent)
    requires Inv(s)
    ensures Inv(Step(s, e))
  {
    if IsKeyboardInput(e) {
      var s1 := EnsureBuffer(Register(s, e.device), e.device);
      assert Inv(s1);
    }
  }

  /**
   * A message that is not raw input, whose size check fails, or that is not
   * from a keyboard changes nothing (MainWindow.xaml.cs:58, 66-67, 70).
   */
  lemma StepIgnoresNonKeyboard(s: State, e: RawEvent)
    requires !IsKeyboardInput(e)
    ensures Step(s, e) == s
  {
  }

  /**
   * Role binding is first-seen and permanent (MainWindow.xaml.cs:75-78):
   * a bound role never changes, the first keyboard seen becomes `device1`,
   * `device2` is bound only to a handle different from `device1`, and a
   * message binds nothing but its own device.
   */
  lemma StepRoles(s: State, e: RawEvent)
    ensures s.device1 != None ==> Step(s, e).device1 == s.device1
    ensures s.device2 != None ==> Step(s, e).device2 == s.device2
    ensures IsKeyboardInput(e) && s.device1 == None ==> Step(s, e).device1 == Some(e.device)
    ensures (IsKeyboardInput(e) && s.device1 != None && s.device1 != Some(e.device) && s.device2 == None)
              ==> Step(s, e).device2 == Some(e.device)
    ensures Step(s, e).device1 != s.device1 ==> IsKeyboardInput(e) && Step(s, e).device1 == Some(e.device)
    ensures Step(s, e).device2 != s.device2 ==> IsKeyboardInput(e) && Step(s, e).device2 == Some(e.device)
  {
  }

  /**
   * A role, once held, is kept; once both roles are bound, a third handle is
   * never given one.
   */
  lemma StepRoleStable(s: State, e: RawEvent, d: Handle)
    requires Inv(s)
    ensures RoleOf(s, d) != Unassigned ==> RoleOf(Step(s, e), d) == RoleOf(s, d)
    ensures s.device1 != None && s.device2 != None ==> RoleOf(Step(s, e), d) == RoleOf(s, d)
  {
  }

  /**
   * Every keyboard message, pressed or not, leaves the device with a buffer;
   * no buffer is ever removed and no history is ever removed.
   */
  lemma StepBuffers(s: State, e: RawEvent)
    ensures IsKeyboardInput(e) ==> e.device in Step(s, e).buffers
    ensures s.buffers.Keys <= Step(s, e).buffers.Keys
    ensures s.histories.Keys <= Step(s, e).histories.Keys
  {
  }

  /**
   * Only the message's own device has its buffer or history changed, and the
   * buffers of all other devices are left as they were.
   */
  lemma StepOnlyOwnDevice(s: State, e: RawEvent, d: Handle)
    requires d != e.device
    ensures d in Step(s, e).buffers <==> d in s.buffers
    ensures d in s.buffers ==> Step(s, e).buffers[d] == s.buffers[d]
    ensures d in Step(s, e).histories <==> d in s.histories
    ensures d in s.histories ==> Step(s, e).histories[d] == s.histories[d]
  {
  }

  /**
   * A key release, another keyboard message, or a key press without a
   * character (MainWindow.xaml.cs:85-88) changes no buffer contents, no
   * history and no list box: at most an empty buffer is created and a role
   * bound.
   */
  lemma StepNoChar(s: State, e: RawEvent)
    requires IsKeyboardInput(e) && !IsTypedChar(e)
    ensures Step(s, e).buffers == s.buffers[e.device := BufferOf(s, e.device)]
    ensures Step(s, e).histories == s.histories
    ensures Step(s, e).box1 == s.box1 && Step(s, e).box2 == s.box2
  {
  }

  /**
   * A character other than Enter is appended to the end of its device's
   * buffer (MainWindow.xaml.cs:117-121); nothing else but the roles changes.
   */
  lemma StepAppendsChar(s: State, e: RawEvent)
    requires IsTypedChar(e) && e.ch != Terminator
    ensures Step(s, e).buffers == s.buffers[e.device := BufferOf(s, e.device) + [e.ch]]
    ensures Step(s, e).histories == s.histories
    ensures Step(s, e).box1 == s.box1 && Step(s, e).box2 == s.box2
  {
  }

  /**
   * Enter completes the scan (MainWindow.xaml.cs:90-98): the code is the
   * device's buffer before the message, the buffer is then empty, and the
   * device's history is its old history (empty if it had none) with the code
   * appended; the other devices are untouched.
   */
  lemma StepCompletesScan(s: State, e: RawEvent)
    requires IsTypedChar(e) && e.ch == Terminator
    ensures Step(s, e).buffers == s.buffers[e.device := ""]
    ensures Step(s, e).histories == s.histories[e.device := HistoryOf(s, e.device) + [BufferOf(s, e.device)]]
  {
  }

  /**
   * Where a completed scan is shown (MainWindow.xaml.cs:101-115): in the list
   * box of the device's role after this message, or nowhere for a device
   * without a role; the match message follows it in the same box exactly when
   * the code was already in the device's own history once, so that it is now
   * there twice. A third or later repeat adds no match message.
   */
  lemma StepRoutesScan(s: State, e: RawEvent)
    requires IsTypedChar(e) && e.ch == Terminator
    ensures var code := BufferOf(s, e.device);
            var shown := ScanItems(HistoryOf(s, e.device), code);
            var t := Step(s, e);
            match RoleOf(t, e.device)
            case Scanner1 => t.box1 == s.box1 + shown && t.box2 == s.box2
            case Scanner2 => t.box1 == s.box1 && t.box2 == s.box2 + shown
            case Unassigned => t.box1 == s.box1 && t.box2 == s.box2
  {
    var d := e.device;
    var s1 := EnsureBuffer(Register(s, d), d);
    var code := BufferOf(s, d);
    assert BufferOf(s1, d) == code && HistoryOf(s1, d) == HistoryOf(s, d);
    assert s1.box1 == s.box1 && s1.box2 == s.box2;
    var history := HistoryOf(s, d) + [code];
    CountAppend(HistoryOf(s, d), code, code);
    var shown := ScanItems(HistoryOf(s, d), code);
    assert shown == if Count(history, code) == 2 then [code, MatchMessage(code)] else [code];
    var mid := s1.(buffers := s1.buffers[d := ""], histories := s1.histories[d := history]);
    assert Step(s, e) == Route(mid, d, shown);
  }

  /** The items a message added to the list box of `device`'s role in `t`. */
  function ShownFor(s: State, t: State, device: Handle): seq<string>
  {
    match RoleOf(t, device)
    case Scanner1 => if |s.box1| <= |t.box1| then t.box1[|s.box1|..] else []
    case Scanner2 => if |s.box2| <= |t.box2| then t.box2[|s.box2|..] else []
    case Unassigned => []
  }

  /**
   * For a device with a role, the match message is shown exactly when the
   * code now occurs exactly twice in the device's own history
   * (MainWindow.xaml.cs:107-115), whatever the other devices' histories hold.
   */
  lemma StepMatchIffTwice(s: State, e: RawEvent)
    requires IsTypedChar(e) && e.ch == Terminator && RoleOf(Step(s, e), e.device) != Unassigned
    ensures var code := BufferOf(s, e.device);
            (MatchMessage(code) in ShownFor(s, Step(s, e), e.device))
              <==> (multiset(Step(s, e).histories[e.device])[code] == 2)
  {
    var code := BufferOf(s, e.device);
    var t := Step(s, e);
    StepRoutesScan(s, e);
    StepCompletesScan(s, e);
    CountAppend(HistoryOf(s, e.device), code, code);
    CountIsMultiplicity(t.histories[e.device], code);
    assert ShownFor(s, t, e.device) == ScanItems(HistoryOf(s, e.device), code);
    MatchMessageDiffers(code);
  }

  /** A code is never equal to the match message about it. */
  lemma MatchMessageDiffers(code: string)
    ensures MatchMessage(code) != code
  {
    assert |MatchMessage(code)| == |MatchPrefix| + |code|;
  }
}
