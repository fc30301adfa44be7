/** The proctoring hook: an append-only violation log and a full-screen
    flag, fed by four browser event handlers that are installed only while
    monitoring is active. Browser events arrive as method calls whose
    arguments carry what the handler reads from the document or event. */
module Proctoring {
  import opened ExamTypes

  // ---------------------------------------------------------------------
  // Keyboard classification
  // ---------------------------------------------------------------------

  /** `toLowerCase` on one character; only ASCII capitals are mapped. */
  function LowerChar(c: char): char
  {
    if 'A' <= c <= 'Z' then (c as int - 'A' as int + 'a' as int) as char else c
  }

  /** `toLowerCase` on ASCII text: every capital becomes its small letter
      (32 code points on), and every other character stays as it is. */
  function ToLower(s: string): (r: string)
    ensures |r| == |s|
    ensures forall i :: 0 <= i < |r| ==> !('A' <= r[i] <= 'Z')
    ensures forall i :: 0 <= i < |s| && 'A' <= s[i] <= 'Z' ==> r[i] as int == s[i] as int + 32
    ensures forall i :: 0 <= i < |s| && !('A' <= s[i] <= 'Z') ==> r[i] == s[i]
  {
    seq(|s|, i requires 0 <= i < |s| => LowerChar(s[i]))
  }

  /** The keys that, with Ctrl or Meta held, copy, paste, select all, cut,
      save, find, print or reload. */
  const ShortcutKeys: set<string> := {"c", "v", "a", "x", "s", "f", "p", "r"}

  /** F1, F5 and F12 by key code. */
  const ReservedKeyCodes: set<int> := {112, 116, 123}

  /** What the keydown handler does with one key press. */
  datatype KeyVerdict = KeyVerdict(recordsCopyPaste: bool, preventDefault: bool)

  /** `handleKeyDown`'s decision: a modifier with one of the shortcut
      letters, in either case, is a `copy_paste` violation and suppressed;
      the reserved function keys are suppressed without a violation. */
  function ClassifyKey(ctrlKey: bool, metaKey: bool, key: string, keyCode: int): (v: KeyVerdict)
    ensures v.recordsCopyPaste <==> (ctrlKey || metaKey) && |key| == 1 && key[0] in "cvaxsfprCVAXSFPR"
    ensures v.preventDefault <==> v.recordsCopyPaste || keyCode in ReservedKeyCodes
  {
    var lowered := ToLower(key);
    assert |key| == 1 ==> lowered == [lowered[0]];
    var shortcut := (ctrlKey || metaKey) && lowered in ShortcutKeys;
    KeyVerdict(shortcut, shortcut || keyCode in ReservedKeyCodes)
  }

  /** F1, F5 and F12 (whose `key` names are longer than one character)
      are suppressed and never recorded, whatever modifiers are held. */
  lemma ReservedKeysNeverRecorded(ctrlKey: bool, metaKey: bool, key: string, keyCode: int)
    requires keyCode in ReservedKeyCodes
    requires |key| != 1
    ensures ClassifyKey(ctrlKey, metaKey, key, keyCode) == KeyVerdict(false, true)
  {
  }

  // ---------------------------------------------------------------------
  // The monitor
  // ---------------------------------------------------------------------

  /** One `useProctoring(isActive)` instance. */
  class ViolationMonitor {
    const isActive: bool
    var violations: seq<ProctoringEvent>
    var isFullscreen: bool

    constructor (isActive: bool)
      ensures this.isActive == isActive
      ensures violations == [] && !isFullscreen
    {
      this.isActive := isActive;
      violations := [];
      isFullscreen := false;
    }

    /** `violationCount`. */
    function ViolationCount(): (n: nat)
      reads this
      ensures n == |violations|
      ensures n == 0 <==> violations == []
    {
      |violations|
    }

    /** `addViolation`: append one event, stamped with the current time. */
    method AddViolation(kind: ViolationType, now: Timestamp)
      modifies this`violations
      ensures violations == old(violations) + [ProctoringEvent(kind, now)]
      ensures ViolationCount() == old(ViolationCount()) + 1
    {
      violations := violations + [ProctoringEvent(kind, now)];
    }

    /** A `fullscreenchange` event; `fullscreenElement` says whether the
        document is now full screen. */
    method OnFullscreenChange(fullscreenElement: bool, now: Timestamp)
      modifies this
      ensures !isActive ==> unchanged(this)
      ensures isActive ==> isFullscreen == fullscreenElement
      ensures isActive ==>
        violations == old(violations) + (if fullscreenElement then [] else [ProctoringEvent(FullscreenExit, now)])
    {
      if !isActive {
        return;
      }
      isFullscreen := fullscreenElement;
      if !fullscreenElement {
        AddViolation(FullscreenExit, now);
      }
    }

    /** A `visibilitychange` event; `hidden` is `document.hidden`. */
    method OnVisibilityChange(hidden: bool, now: Timestamp)
      modifies this
      ensures !isActive ==> unchanged(this)
      ensures isActive ==> isFullscreen == old(isFullscreen)
      ensures isActive ==>
        violations == old(violations) + (if hidden then [ProctoringEvent(TabChange, now)] else [])
    {
      if !isActive {
        return;
      }
      if hidden {
        AddViolation(TabChange, now);
      }
    }

    /** A `contextmenu` event: suppressed and recorded whenever monitored. */
    method OnContextMenu(now: Timestamp) returns (preventDefault: bool)
      modifies this
      ensures !isActive ==> unchanged(this) && !preventDefault
      ensures isActive ==> preventDefault && isFullscreen == old(isFullscreen)
      ensures isActive ==> violations == old(violations) + [ProctoringEvent(RightClick, now)]
    {
      if !isActive {
        return false;
      }
      preventDefault := true;
      AddViolation(RightClick, now);
    }

    /** A `keydown` event. */
    method OnKeyDown(ctrlKey: bool, metaKey: bool, key: string, keyCode: int, now: Timestamp)
      returns (preventDefault: bool)
      modifies this
      ensures !isActive ==> unchanged(this) && !preventDefault
      ensures isActive ==> preventDefault == ClassifyKey(ctrlKey, metaKey, key, keyCode).preventDefault
      ensures isActive ==> isFullscreen == old(isFullscreen)
      ensures isActive ==>
        violations == old(violations) + (if ClassifyKey(ctrlKey, metaKey, key, keyCode).recordsCopyPaste
                                         then [ProctoringEvent(CopyPaste, now)] else [])
    {
      if !isActive {
        return false;
      }
      var verdict := ClassifyKey(ctrlKey, metaKey, key, keyCode);
      if verdict.recordsCopyPaste {
        AddViolation(CopyPaste, now);
      }
      preventDefault := verdict.preventDefault;
    }
  }

  /** Leaving full screen, re-entering and leaving again records two
      `fullscreen_exit` events, in order, without merging them. */
  method ExitEnterExit(t1: Timestamp, t2: Timestamp, t3: Timestamp)
    returns (log: seq<ProctoringEvent>, fullscreen: bool)
    ensures log == [ProctoringEvent(FullscreenExit, t1), ProctoringEvent(FullscreenExit, t3)]
    ensures !fullscreen
  {
    var monitor := new ViolationMonitor(true);
    monitor.OnFullscreenChange(false, t1);
    monitor.OnFullscreenChange(true, t2);
    monitor.OnFullscreenChange(false, t3);
    log, fullscreen := monitor.violations, monitor.isFullscreen;
  }

  /** With monitoring off, no event of any kind reaches the log or the
      full-screen flag, and nothing is suppressed. */
  method InactiveMonitorIgnoresEvents(hidden: bool, fullscreenElement: bool, ctrlKey: bool, metaKey: bool,
                                      key: string, keyCode: int, now: Timestamp)
    returns (count: nat, fullscreen: bool, suppressed: bool)
    ensures count == 0 && !fullscreen && !suppressed
  {
    var monitor := new ViolationMonitor(false);
    monitor.OnFullscreenChange(fullscreenElement, now);
    monitor.OnVisibilityChange(hidden, now);
    var menuSuppressed := monitor.OnContextMenu(now);
    var keySuppressed := monitor.OnKeyDown(ctrlKey, metaKey, key, keyCode, now);
    count, fullscreen, suppressed := monitor.ViolationCount(), monitor.isFullscreen, menuSuppressed || keySuppressed;
  }
}
