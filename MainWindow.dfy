/**
 * The scanner window itself (MainWindow.xaml.cs:19-135): the fields that
 * `WndProc` updates in place, and `WndProc` as a method proved to do what
 * `Dispatch.Step` describes.
 */
module RawInputScanner {
  import opened Wrappers
  import opened History
  import opened Dispatch

  class MainWindow {
    /** The characters typed on each device since its last Enter. */
    var deviceBuffers: map<Handle, string>
    /** The completed scans of each device, oldest first. */
    var deviceHistories: map<Handle, seq<string>>
    /** The first two distinct keyboards seen. */
    var device1: Option<Handle>
    var device2: Option<Handle>
    /** The items of the list boxes `Scanner1Box` and `Scanner2Box`. */
    var scanner1Box: seq<string>
    var scanner2Box: seq<string>

    /** The window's fields as a `Dispatch.State`. */
    function Snapshot(): State
      reads this
    {
      State(deviceBuffers, deviceHistories, device1, device2, scanner1Box, scanner2Box)
    }

    ghost predicate Valid()
      reads this
    {
      Inv(Snapshot())
    }

    /** A new window: no device seen, nothing buffered, both boxes empty (MainWindow.xaml.cs:27-37). */
    constructor ()
      ensures Valid()
      ensures Snapshot() == Initial
    {
      deviceBuffers := map[];
      deviceHistories := map[];
      device1 := None;
      device2 := None;
      scanner1Box := [];
      scanner2Box := [];
    }

    /**
     * The window procedure hook for one message (MainWindow.xaml.cs:56-135).
     * The new state is `Step` of the old one, which the lemmas of `Dispatch`
     * and `Traces` characterise; the invariant `Valid()`, which the
     * constructor establishes, is kept.
     */
    method WndProc(e: RawEvent)
      modifies this
      ensures Snapshot() == Step(old(Snapshot()), e)
      ensures old(Valid()) ==> Valid()
    {
      if e.windowMessage == WM_INPUT {
        // A message whose second size query disagrees with the first is dropped.
        if e.sizeMatches && e.inputType == RIM_TYPEKEYBOARD {
          var device := e.device;

          // The first two distinct keyboards take the two roles.
          if device1 == None {
            device1 := Some(device);
          } else if device2 == None && Some(device) != device1 {
            device2 := Some(device);
          }

          if device !in deviceBuffers {
            deviceBuffers := deviceBuffers[device := ""];
          }
          assert Snapshot() == EnsureBuffer(Register(old(Snapshot()), device), device);

          // Only key presses reach the buffer.
          if e.keyMessage == WM_KEYDOWN {
            var ch := e.ch;
            if ch != NoChar {
              if ch == Terminator {
                FinishScan(device);
              } else {
                deviceBuffers := deviceBuffers[device := deviceBuffers[device] + [ch]];
              }
            }
          }
        }
      }
      if old(Valid()) {
        StepInv(old(Snapshot()), e);
      }
    }

    /**
     * Enter on `device` (MainWindow.xaml.cs:90-115): the buffer is taken as
     * the completed code and cleared, the code is appended to the device's
     * history and to its list box, and the match message follows it when the
     * history now holds the code exactly twice.
     */
    method FinishScan(device: Handle)
      requires device in deviceBuffers
      modifies this
      ensures Snapshot() == CompleteScan(old(Snapshot()), device)
    {
      ghost var s1 := Snapshot();
      var code := deviceBuffers[device];
      deviceBuffers := deviceBuffers[device := ""];

      if device !in deviceHistories {
        deviceHistories := deviceHistories[device := []];
      }
      assert deviceHistories == s1.histories[device := HistoryOf(s1, device)];
      deviceHistories := deviceHistories[device := deviceHistories[device] + [code]];

      if Some(device) == device1 {
        scanner1Box := scanner1Box + [code];
      } else if Some(device) == device2 {
        scanner2Box := scanner2Box + [code];
      }

      ghost var history := HistoryOf(s1, device) + [code];
      assert deviceHistories == s1.histories[device := history];
      var count := Count(deviceHistories[device], code);
      if count == 2 {
        var matchMsg := MatchMessage(code);
        if Some(device) == device1 {
          scanner1Box := scanner1Box + [matchMsg];
        } else if Some(device) == device2 {
          scanner2Box := scanner2Box + [matchMsg];
        }
      }

      ghost var shown := if count == 2 then [code, MatchMessage(code)] else [code];
      assert Snapshot() == Route(s1.(buffers := deviceBuffers, histories := deviceHistories), device, shown) by {
        match RoleOf(s1, device)
        case Scanner1 =>
          assert scanner1Box == s1.box1 + shown && scanner2Box == s1.box2;
        case Scanner2 =>
          assert scanner2Box == s1.box2 + shown && scanner1Box == s1.box1;
        case Unassigned =>
      }
    }
  }
}
