/**
 * The shortcut field of the settings dialog: while it has focus, a key
 * press (other than a lone modifier) replaces its value by the pressed
 * combination written the way the matcher reads it, such as `Ctrl+Alt+F`.
 */
module ShortcutInput {
  import opened Strings
  import opened Shortcut

  /** The `key` values of the four modifier keys pressed on their own. */
  const LoneModifierKeys: seq<string> := ["Control", "Alt", "Shift", "Meta"]

  /** Field hint while waiting for a combination. */
  const CapturingHint: string := "Press key combination..."

  /** Field hint while the field does not have focus. */
  const IdleHint: string := "Click and press keys"

  /** Position of a modifier name in the capture order; 4 for any other string. */
  function Rank(name: string): nat
  {
    if name == "Ctrl" then 0
    else if name == "Alt" then 1
    else if name == "Shift" then 2
    else if name == "Meta" then 3
    else 4
  }

  /** The names of the held modifiers, in the order Ctrl, Alt, Shift, Meta. */
  function HeldModifiers(e: KeyEvent): seq<string>
  {
    (if e.ctrlKey then ["Ctrl"] else []) + (if e.altKey then ["Alt"] else []) +
    (if e.shiftKey then ["Shift"] else []) + (if e.metaKey then ["Meta"] else [])
  }

  /** Each modifier is named exactly when its flag is set. */
  lemma HeldModifiersFlags(e: KeyEvent)
    ensures FlagsAgree(e, HeldModifiers(e))
  {
  }

  /**
   * Only the four modifier names occur, at most once each and in the fixed
   * order Ctrl, Alt, Shift, Meta.
   */
  lemma HeldModifiersOrdered(e: KeyEvent)
    ensures forall i :: 0 <= i < |HeldModifiers(e)| ==> HeldModifiers(e)[i] in ModifierNames
    ensures forall i, j :: 0 <= i < j < |HeldModifiers(e)| ==> Rank(HeldModifiers(e)[i]) < Rank(HeldModifiers(e)[j])
  {
  }

  /** The string the field shows after capturing `e`. */
  function Capture(e: KeyEvent, upper: string -> string): string
  {
    Join(HeldModifiers(e) + [NormaliseKey(e.key, upper)], Separator)
  }

  /**
   * The state of `setupShortcutInput`: the `isCapturing` flag its handlers
   * share, and the input element's value and placeholder.
   */
  class ShortcutField {
    var isCapturing: bool
    var value: string
    var placeholder: string

    /** The field as the dialog opens, showing the configured shortcut. */
    constructor(shortcut: string)
      ensures !isCapturing && value == shortcut && placeholder == IdleHint
    {
      isCapturing := false;
      value := shortcut;
      placeholder := IdleHint;
    }

    /** The focus handler: start capturing. */
    method Focus()
      modifies this
      ensures isCapturing && placeholder == CapturingHint && value == old(value)
    {
      isCapturing := true;
      placeholder := CapturingHint;
    }

    /** The blur handler: stop capturing. */
    method Blur()
      modifies this
      ensures !isCapturing && placeholder == IdleHint && value == old(value)
    {
      isCapturing := false;
      placeholder := IdleHint;
    }

    /**
     * The keydown handler. While capturing it suppresses the event's default
     * action (`prevented`) and stops its propagation (`stopped`), so the
     * document's own shortcut listener does not see it; unless the key is a
     * lone modifier it then sets the value to the captured combination.
     * Otherwise the value stays.
     */
    method Keydown(e: KeyEvent, upper: string -> string) returns (prevented: bool, stopped: bool)
      modifies this
      ensures prevented == old(isCapturing) && stopped == old(isCapturing)
      ensures value == (if old(isCapturing) && e.key !in LoneModifierKeys then Capture(e, upper) else old(value))
      ensures isCapturing == old(isCapturing) && placeholder == old(placeholder)
    {
      if !isCapturing {
        return false, false;
      }
      prevented, stopped := true, true;
      if e.key in LoneModifierKeys {
        return;
      }
      var keys: seq<string> := [];
      if e.ctrlKey { keys := keys + ["Ctrl"]; }
      if e.altKey { keys := keys + ["Alt"]; }
      if e.shiftKey { keys := keys + ["Shift"]; }
      if e.metaKey { keys := keys + ["Meta"]; }
      assert keys == HeldModifiers(e);
      var mainKey := e.key;
      if mainKey in KeyMap {
        mainKey := KeyMap[mainKey];
      } else if IsSingleUnit(mainKey) {
        mainKey := upper(mainKey);
      }
      assert mainKey == NormaliseKey(e.key, upper);
      keys := keys + [mainKey];
      value := Join(keys, Separator);
    }

    /** The clear button: empty the value and give the field focus again. */
    method Clear()
      modifies this
      ensures value == "" && isCapturing && placeholder == CapturingHint
    {
      value := "";
      Focus();
    }
  }

  /**
   * When the normalised key has no `+`, the captured string splits into the
   * held modifiers followed by the normalised key: one component per held
   * modifier plus one, the last being the main key.
   */
  lemma CaptureComponents(e: KeyEvent, upper: string -> string)
    requires Separator !in NormaliseKey(e.key, upper)
    ensures Split(Capture(e, upper), Separator) == HeldModifiers(e) + [NormaliseKey(e.key, upper)]
    ensures |Split(Capture(e, upper), Separator)| == |HeldModifiers(e)| + 1
    ensures Modifiers(Capture(e, upper)) == HeldModifiers(e)
    ensures MainKey(Capture(e, upper)) == NormaliseKey(e.key, upper)
  {
    var held := HeldModifiers(e);
    HeldModifiersOrdered(e);
    assert forall i :: 0 <= i < |held| ==> Separator !in held[i];
    ShortcutComponents(held, NormaliseKey(e.key, upper));
  }

  /**
   * A captured combination matches the event it was captured from exactly
   * when the normalised key has no `+` and the captured string is not empty
   * (it is empty only for an event with no modifier and an empty key).
   */
  lemma CaptureRoundTrip(e: KeyEvent, upper: string -> string)
    ensures IsShortcutMatch(e, Capture(e, upper), upper) <==>
      Separator !in NormaliseKey(e.key, upper) && (NormaliseKey(e.key, upper) != "" || HeldModifiers(e) != [])
  {
    var key := NormaliseKey(e.key, upper);
    if Separator in key {
      PlusKeyNeverMatches(e, Capture(e, upper), upper);
    } else {
      CaptureComponents(e, upper);
      HeldModifiersFlags(e);
      MatchIff(e, Capture(e, upper), upper);
      assert Split("", Separator) == [""];
    }
  }

  /**
   * Every key the table names (Space, Enter, Esc, the arrows and the rest)
   * is captured as a shortcut that its own event matches.
   */
  lemma TableKeyRoundTrip(e: KeyEvent, upper: string -> string)
    requires e.key in KeyMap
    ensures IsShortcutMatch(e, Capture(e, upper), upper)
  {
    KeyMapNamesUsable();
    CaptureRoundTrip(e, upper);
  }

  /**
   * Pressing `+` (which upper-cases to itself) captures a string ending in
   * `+`, whose main key is therefore empty, and which never matches.
   */
  lemma PlusKeyCapture(e: KeyEvent, upper: string -> string)
    requires e.key == "+" && upper("+") == "+"
    ensures MainKey(Capture(e, upper)) == ""
    ensures !IsShortcutMatch(e, Capture(e, upper), upper)
  {
    PlusKeyNormalises(e, upper);
    CaptureEndsWithKey(e, upper);
    SplitEndsWithSeparator(Capture(e, upper), Separator);
    PlusKeyNeverMatches(e, Capture(e, upper), upper);
  }

  /** The `+` key is a single character, upper-cased to itself. */
  lemma PlusKeyNormalises(e: KeyEvent, upper: string -> string)
    requires e.key == "+" && upper("+") == "+"
    ensures NormaliseKey(e.key, upper) == "+"
  {
    SingleKeysOfMap();
  }

  /** The capture ends with the normalised key. */
  lemma CaptureEndsWithKey(e: KeyEvent, upper: string -> string)
    ensures var c, key := Capture(e, upper), NormaliseKey(e.key, upper);
      |c| >= |key| && c[|c| - |key|..] == key
  {
    JoinLast(HeldModifiers(e), NormaliseKey(e.key, upper), Separator);
  }
}
