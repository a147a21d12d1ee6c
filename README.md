# Raw-input barcode scanner demultiplexer, in Dafny

The scanner application listens to the raw keyboard input of a Windows host
to which one or more barcode scanners are attached. Each keyboard message
carries the handle of the device that produced it. The window procedure
`WndProc` (`MainWindow.xaml.cs`) does four things with that message:

- **Role registration.** The first two distinct keyboard handles become
  `device1` and `device2` for the rest of the process.
- **Line assembly.** Each device has its own text buffer, to which the
  characters of its key presses are appended.
- **Scan completion.** Enter (`'\r'`) takes the buffer as a completed scan,
  clears the buffer and appends the scan to the device's history.
- **Duplicate detection and routing.** The scan is shown in the list box of
  the device's role (`Scanner1Box` for `device1`, `Scanner2Box` for
  `device2`, nowhere for any other device). When the value now occurs exactly
  twice in that device's own history, the message `"✔ 一致確認: " + code` is
  shown after it in the same box.

The model has five files:

- `Wrappers.dfy`: `Option`, standing for the nullable handles `IntPtr?`.
- `History.dfy`: `Count`, the occurrence count
  `deviceHistories[device].FindAll(c => c == code).Count`, with its
  properties.
- `Dispatch.dfy`: the window's state as a value (`State`: buffers, histories,
  the two roles, the items of both list boxes), one window message
  (`RawEvent`), and `Step`, the reference definition of what one call of
  `WndProc` does. The lemmas state each rule of the state machine.
- `Traces.dfy`: `Run`, many messages in a row, with lemmas over whole
  sequences. Roles are permanent and histories are append-only. Over any
  interleaving of devices and key releases, a device's buffer is exactly
  the characters typed on it since its last Enter. From a new window, the
  match message for a code is shown at most once per device. It also works
  through concrete message sequences: roles in first-seen order, no match
  across devices, a match on the second scan only, and empty scans.
- `MainWindow.dfy`: the class `MainWindow` with the source's fields
  (`deviceBuffers`, `deviceHistories`, `device1`, `device2`) and the two
  list boxes as sequences. `WndProc` updates them in place. It is proved to
  leave the object in `Step` of its old state and to keep the invariant.
  The Enter branch is the method `FinishScan`, proved against
  `CompleteScan`.

A message is `RawEvent(windowMessage, sizeMatches, inputType, device,
keyMessage, ch)`. `sizeMatches` says whether the second `GetRawInputData`
call returned the size that the first call reported. `ch` is the result of
`KeyToChar` when it is a Unicode scalar value, with `'\0'` meaning "no
character". `WM_INPUT` (0x00FF) and `RIM_TYPEKEYBOARD` (1) are the source's
constants (MainWindow.xaml.cs:22, 24). `WM_KEYDOWN` is the model's name for
the literal 0x0100 tested at MainWindow.xaml.cs:85.

Two behaviours of the code are easy to miss, and the model keeps both:

- The role is bound, and an empty buffer created, for every keyboard
  message, including key releases and key presses that translate to no
  character. Both happen before the key-press test
  (MainWindow.xaml.cs:75-85). So a device that has a buffer but no role
  exists only once both roles are held, which is part of the invariant.
- Enter on an empty buffer completes the scan `""`. It is recorded, shown
  and confirmed like any other value (`Traces.EmptyScansMatch`).

## Model

| member | source | states |
|---|---|---|
| History.Count | MainWindow.xaml.cs:107 | the count of a value in a history is at most the history's length, and is zero exactly when the value is absent |
| History.CountAppend | MainWindow.xaml.cs:98-107 | appending an entry raises the count of that entry by one and leaves every other value's count unchanged |
| History.CountIsMultiplicity | MainWindow.xaml.cs:107 | the count equals the value's multiplicity in the history taken as a multiset |
| Dispatch.StepIgnoresNonKeyboard | MainWindow.xaml.cs:58-70 | a message that is not raw input, fails the size check, or is not from a keyboard leaves the whole state unchanged |
| Dispatch.StepRoles | MainWindow.xaml.cs:75-78 | a bound role never changes; the first keyboard seen becomes device1; the next different handle becomes device2; a role is only ever bound to the message's own device |
| Dispatch.StepRoleStable | MainWindow.xaml.cs:75-78 | a device with a role keeps it; once both roles are bound, no device's role changes, so a third handle stays unassigned |
| Dispatch.Register | MainWindow.xaml.cs:75-78 | a bound role is never rebound, only the message's device can be bound, only the role fields change, and the device is left without a role exactly when both roles were already held by other devices; StepRoles and StepRoleStable state the same over a whole message |
| Dispatch.EnsureBuffer | MainWindow.xaml.cs:81-82 | afterwards the device has a buffer, an existing buffer keeps its contents, a missing one is empty, and nothing else changes; StepBuffers and StepNoChar state the same over a whole message |
| Dispatch.Route | MainWindow.xaml.cs:101-114 | device state is untouched; the items are appended, in order, to the end of the first list box for device1 and of the second for device2, leaving the other box as it was; a device without a role shows nothing; StepRoutesScan states which items a completed scan routes |
| Dispatch.CompleteScan | MainWindow.xaml.cs:90-115 | the buffer is emptied, the old buffer is appended to the device's history, the roles are untouched and the list boxes only grow; StepCompletesScan, StepRoutesScan and StepMatchIffTwice state the effect of Enter over a whole message |
| Dispatch.Step | MainWindow.xaml.cs:58-124 | the list boxes are append-only and one message adds at most two items; the lemmas StepIgnoresNonKeyboard through StepMatchIffTwice state each of its cases, and WndProc is proved to end in it |
| Dispatch.StepInv | MainWindow.xaml.cs:75-98 | every message keeps the invariant: device2 is bound only after device1 and differs from it, every role holder and every device with a history has a buffer, and a device with a buffer but no role exists only once both roles are held |
| Dispatch.StepBuffers | MainWindow.xaml.cs:81-82 | every keyboard message, pressed or not, leaves its device with a buffer; no buffer and no history is ever removed |
| Dispatch.StepOnlyOwnDevice | MainWindow.xaml.cs:81-121 | the buffers and histories of every other device are unchanged |
| Dispatch.StepNoChar | MainWindow.xaml.cs:85-88 | a key release or a key press without a character changes no buffer contents, no history and no list box; at most an empty buffer is created |
| Dispatch.StepAppendsChar | MainWindow.xaml.cs:117-121 | a character other than Enter is appended to the end of its device's buffer; histories and list boxes are unchanged |
| Dispatch.StepCompletesScan | MainWindow.xaml.cs:90-98 | Enter empties the device's buffer and appends the old buffer contents to the device's history, creating the history if absent; other devices are unchanged |
| Dispatch.StepRoutesScan | MainWindow.xaml.cs:101-115 | the completed code goes to device1's box, device2's box, or neither, by the device's role; the match message (MatchMessage, the prefix "✔ 一致確認: " followed by the code, line 110) follows it in the same box exactly when the code was in the device's history once before; a third or later repeat shows no match |
| Dispatch.StepMatchIffTwice | MainWindow.xaml.cs:107-115 | for a device with a role, the match message is shown if and only if the code's multiplicity in that device's own history is now exactly 2 |
| Traces.Run | MainWindow.xaml.cs:56-135 | over any sequence of messages the list boxes are append-only; RunInv, RunRolesStable, RunHistoriesGrow, RunAssemblesLine and RunMatchesShown state what it keeps over whole sequences |
| Traces.RunInv | MainWindow.xaml.cs:70-124 | the invariant holds after any sequence of messages |
| Traces.RunRolesStable | MainWindow.xaml.cs:75-78 | over any sequence of messages, bound roles keep their handles and devices keep their roles |
| Traces.RunHistoriesGrow | MainWindow.xaml.cs:95-98 | over any sequence of messages, each device's old history is a prefix of its new history |
| Traces.RunAssemblesLine | MainWindow.xaml.cs:85-121 | over any sequence without Enter on a device, interleaved with other devices' messages and key releases, that device's buffer becomes its old contents followed by exactly the characters typed on it, in order, and its history is unchanged |
| Traces.RunScansLine | MainWindow.xaml.cs:90-98 | Enter after such a sequence records its old buffer followed by exactly the characters typed on the device as one scan, and leaves the buffer empty |
| Traces.StepShowsMatch | MainWindow.xaml.cs:95-115 | under the invariant, a message shows the match message for a code on a device exactly when it makes the code confirmed there (at least twice in the history, with a list box); any other message leaves that status unchanged |
| Traces.RunMatchesShown | MainWindow.xaml.cs:95-115 | over any sequence of messages from a state satisfying the invariant, the number of match messages shown for a code on a device equals the change in whether the code is confirmed there |
| Traces.MatchShownOnce | MainWindow.xaml.cs:107-115 | from a new window, over any sequence of messages, the match message for a code is shown at most once per device, and exactly once when the device has a list box and the code is in its history at least twice |
| Traces.TypingAppends | MainWindow.xaml.cs:117-121 | key presses of text without Enter append exactly that text, in order, to the device's buffer and change no history or list box |
| Traces.ScanShown | MainWindow.xaml.cs:90-121 | typing text and pressing Enter empties the buffer, records the old buffer followed by the text as one scan, and shows it in the device's box with the match message exactly when it was seen once before |
| Traces.RolesInFirstSeenOrder | MainWindow.xaml.cs:75-85 | from a new window, for three distinct handles A, B and C, key releases from A, B, A, C give A the first role, B the second and C none, and create all three buffers |
| Traces.NoMatchAcrossDevices | MainWindow.xaml.cs:95-115 | from a new window, any code scanned once on each of two devices is shown once in each box and confirmed in neither, because counts are per device |
| Traces.MatchOnSecondScanOnly | MainWindow.xaml.cs:107-115 | on the device that holds or takes the first role, from an empty buffer, a code new to its history, scanned three times, is shown in the first box each time and confirmed once, right after the second scan, and not after the third |
| Traces.EmptyScansMatch | MainWindow.xaml.cs:90-115 | on the device that holds or takes the first role, with an empty buffer and "" new to its history, two Enters record "" twice, show it twice in the first box, and show the match message for "" after the second |
| RawInputScanner.MainWindow.constructor | MainWindow.xaml.cs:27-37 | a new window has no roles, buffers, histories or list box items, and satisfies the invariant |
| RawInputScanner.MainWindow.WndProc | MainWindow.xaml.cs:56-135 | updating the fields in place leaves the window in Step of its old state, and keeps the invariant |
| RawInputScanner.MainWindow.FinishScan | MainWindow.xaml.cs:90-115 | the Enter branch, updating the fields in place, leaves the window in CompleteScan of its old state |

## Left out

- `Window_Loaded` and `RegisterRawInputDevices` (MainWindow.xaml.cs:39-54): registration of the window with the operating system, with no logic of its own.
- The two `GetRawInputData` calls, `Marshal.AllocHGlobal`/`FreeHGlobal` and `PtrToStructure` (MainWindow.xaml.cs:60-69, 126-129): foreign calls and unmanaged memory. The size check is the input `sizeMatches`; the release of the scratch buffer on every path is not modelled.
- `KeyToChar`, `GetKeyboardState`, `ToUnicodeEx` and `GetKeyboardLayout` (MainWindow.xaml.cs:138-147): these depend on the host's keyboard layout and modifier state. The translated character is an input of each message instead.
- UTF-16 surrogate code units: `KeyToChar` returns one UTF-16 code unit (`sb[0]`, MainWindow.xaml.cs:144-146), which for a character outside the Basic Multilingual Plane is a lone high surrogate that line 120 appends to the buffer. A Dafny `char` is a Unicode scalar value, so no message of the model can carry a surrogate, and buffers holding one are not represented.
- The struct layouts and `DllImport` declarations (MainWindow.xaml.cs:149-204): interop definitions only.
- The `handled` flag and the return value of `WndProc` (MainWindow.xaml.cs:131, 134): window plumbing. WPF rendering of the list boxes is not modelled; their item lists are plain sequences.
- Device handles are modelled as unbounded integers. `IntPtr` is only compared for equality, so its width does not matter.
