/**
 * The keyboard-shortcut matcher of the plugin: a shortcut is a string such as
 * `Ctrl+Alt+F`, split on `+` into modifier names and a main key, and a key
 * event matches it when exactly the named modifiers are held and the event's
 * normalised key is the main key.
 */
module Shortcut {
  import opened Strings

  /** The fields of a DOM `KeyboardEvent` the matcher reads. */
  datatype KeyEvent = KeyEvent(ctrlKey: bool, altKey: bool, shiftKey: bool, metaKey: bool, key: string)

  /** The character that separates the components of a shortcut. */
  const Separator: char := '+'

  /** The shortcut a fresh configuration carries. */
  const DefaultShortcut: string := "Ctrl+Alt+F"

  /** The four modifier names a shortcut can contain, in capture order. */
  const ModifierNames: seq<string> := ["Ctrl", "Alt", "Shift", "Meta"]

  /**
   * The key-name table shared by the matcher and the capture field: `key`
   * values of a `KeyboardEvent` and the name a shortcut uses for them.
   */
  const KeyMap: map<string, string> := map[
    " " := "Space",
    "Enter" := "Enter",
    "Escape" := "Esc",
    "ArrowUp" := "↑",
    "ArrowDown" := "↓",
    "ArrowLeft" := "←",
    "ArrowRight" := "→",
    "Backspace" := "Backspace",
    "Delete" := "Delete",
    "Tab" := "Tab",
    "Insert" := "Insert",
    "Home" := "Home",
    "End" := "End",
    "PageUp" := "PageUp",
    "PageDown" := "PageDown"
  ]

  /** The only one-character key the table names is the space bar. */
  lemma SingleKeysOfMap()
    ensures forall key :: key in KeyMap && |key| == 1 ==> key == " "
  {
  }

  /** Every name in the table is a usable main key: not empty and free of `+`. */
  lemma KeyMapNamesUsable()
    ensures forall key :: key in KeyMap ==> KeyMap[key] != "" && Separator !in KeyMap[key]
  {
  }

  /** A string of JavaScript length 1: one character that is one UTF-16 code unit. */
  predicate IsSingleUnit(key: string)
  {
    |key| == 1 && key[0] as int < 0x1_0000
  }

  /**
   * The name a shortcut uses for an event's `key`: the table's name when the
   * table has one, the upper-cased key when it is a single character, and
   * the key itself otherwise. `upper` stands for `String.prototype.toUpperCase`.
   */
  function NormaliseKey(key: string, upper: string -> string): string
  {
    if key in KeyMap then KeyMap[key]
    else if IsSingleUnit(key) then upper(key)
    else key
  }

  /** The components of a shortcut except the last: its modifier names. */
  function Modifiers(shortcut: string): seq<string>
  {
    var keys := Split(shortcut, Separator);
    keys[..|keys| - 1]
  }

  /** The last component of a shortcut: its main key. */
  function MainKey(shortcut: string): string
  {
    Last(Split(shortcut, Separator))
  }

  /** Each modifier flag of the event is set exactly when the modifiers name it. */
  predicate FlagsAgree(e: KeyEvent, modifiers: seq<string>)
  {
    e.ctrlKey == ("Ctrl" in modifiers) && e.altKey == ("Alt" in modifiers) &&
    e.shiftKey == ("Shift" in modifiers) && e.metaKey == ("Meta" in modifiers)
  }

  /** `isShortcutMatch`, test by test in the order of the source. */
  function IsShortcutMatch(e: KeyEvent, shortcut: string, upper: string -> string): bool
  {
    if shortcut == "" then false
    else
      var keys := Split(shortcut, Separator);
      var modifiers := keys[..|keys| - 1];
      var mainKey := keys[|keys| - 1];
      if e.ctrlKey != ("Ctrl" in modifiers) then false
      else if e.altKey != ("Alt" in modifiers) then false
      else if e.shiftKey != ("Shift" in modifiers) then false
      else if e.metaKey != ("Meta" in modifiers) then false
      else NormaliseKey(e.key, upper) == mainKey
  }

  /**
   * An event matches a shortcut exactly when the shortcut is not empty, the
   * four modifier flags agree with the modifier names, and the normalised
   * key is the main key.
   */
  lemma MatchIff(e: KeyEvent, shortcut: string, upper: string -> string)
    ensures IsShortcutMatch(e, shortcut, upper) <==>
      shortcut != "" && FlagsAgree(e, Modifiers(shortcut)) &&
      NormaliseKey(e.key, upper) == MainKey(shortcut)
  {
  }

  /** The empty shortcut matches no event. */
  lemma EmptyNeverMatches(e: KeyEvent, upper: string -> string)
    ensures !IsShortcutMatch(e, "", upper)
  {
  }

  /** Holding a modifier the shortcut does not name fails the match. */
  lemma ExtraModifierFails(e: KeyEvent, shortcut: string, upper: string -> string)
    requires (e.ctrlKey && "Ctrl" !in Modifiers(shortcut)) || (e.altKey && "Alt" !in Modifiers(shortcut)) ||
             (e.shiftKey && "Shift" !in Modifiers(shortcut)) || (e.metaKey && "Meta" !in Modifiers(shortcut))
    ensures !IsShortcutMatch(e, shortcut, upper)
  {
  }

  /**
   * An event whose normalised key contains `+` matches no shortcut: the main
   * key of a shortcut never contains the separator.
   */
  lemma {:induction false} PlusKeyNeverMatches(e: KeyEvent, shortcut: string, upper: string -> string)
    requires Separator in NormaliseKey(e.key, upper)
    ensures !IsShortcutMatch(e, shortcut, upper)
  {
    SplitPiecesFree(shortcut, Separator);
  }

  /**
   * The main key and the modifier names of a shortcut built by joining them
   * with `+` are recovered exactly, provided none contains `+`.
   */
  lemma ShortcutComponents(modifiers: seq<string>, mainKey: string)
    requires forall i :: 0 <= i < |modifiers| ==> Separator !in modifiers[i]
    requires Separator !in mainKey
    ensures Split(Join(modifiers + [mainKey], Separator), Separator) == modifiers + [mainKey]
    ensures Modifiers(Join(modifiers + [mainKey], Separator)) == modifiers
    ensures MainKey(Join(modifiers + [mainKey], Separator)) == mainKey
  {
    var keys := modifiers + [mainKey];
    SplitJoin(keys, Separator);
    assert keys[..|keys| - 1] == modifiers;
  }

  /**
   * For a non-empty main key, only which of the four names appear among the
   * modifiers matters: their order, repetitions and any unknown names are
   * ignored. (With an empty main key, `"Foo+"` matches a key-less event while
   * `""` never matches.)
   */
  lemma KnownModifiersOnly(e: KeyEvent, modifiers1: seq<string>, modifiers2: seq<string>,
                           mainKey: string, upper: string -> string)
    requires forall i :: 0 <= i < |modifiers1| ==> Separator !in modifiers1[i]
    requires forall i :: 0 <= i < |modifiers2| ==> Separator !in modifiers2[i]
    requires Separator !in mainKey && mainKey != ""
    requires forall name :: name in ModifierNames ==> (name in modifiers1 <==> name in modifiers2)
    ensures IsShortcutMatch(e, Join(modifiers1 + [mainKey], Separator), upper) ==
            IsShortcutMatch(e, Join(modifiers2 + [mainKey], Separator), upper)
  {
    ShortcutComponents(modifiers1, mainKey);
    ShortcutComponents(modifiers2, mainKey);
    assert Split("", Separator) == [""];
    assert "Ctrl" in ModifierNames && "Alt" in ModifierNames;
    assert "Shift" in ModifierNames && "Meta" in ModifierNames;
  }

  /** The default shortcut names Ctrl and Alt as modifiers and `F` as main key. */
  lemma DefaultShortcutParts()
    ensures Modifiers(DefaultShortcut) == ["Ctrl", "Alt"]
    ensures MainKey(DefaultShortcut) == "F"
  {
    var keys := ["Ctrl", "Alt"] + ["F"];
    assert keys[1..][1..] == ["F"];
    assert Join(keys[1..], Separator) == "Alt+F";
    assert Join(keys, Separator) == DefaultShortcut;
    ShortcutComponents(["Ctrl", "Alt"], "F");
  }

  /**
   * The default `Ctrl+Alt+F` matches Ctrl+Alt with `f` or `F` (when
   * upper-casing maps both to `F`), and no event with Shift or Meta held or
   * with Ctrl or Alt released.
   */
  lemma DefaultShortcutMatches(e: KeyEvent, upper: string -> string)
    requires upper("f") == "F" && upper("F") == "F"
    ensures e.ctrlKey && e.altKey && !e.shiftKey && !e.metaKey && (e.key == "f" || e.key == "F") ==>
      IsShortcutMatch(e, DefaultShortcut, upper)
    ensures IsShortcutMatch(e, DefaultShortcut, upper) ==> e.ctrlKey && e.altKey && !e.shiftKey && !e.metaKey
  {
    DefaultShortcutParts();
    CtrlAltFMatches(e, DefaultShortcut, upper);
  }

  lemma CtrlAltFMatches(e: KeyEvent, shortcut: string, upper: string -> string)
    requires upper("f") == "F" && upper("F") == "F"
    requires shortcut != "" && Modifiers(shortcut) == ["Ctrl", "Alt"] && MainKey(shortcut) == "F"
    ensures e.ctrlKey && e.altKey && !e.shiftKey && !e.metaKey && (e.key == "f" || e.key == "F") ==>
      IsShortcutMatch(e, shortcut, upper)
    ensures IsShortcutMatch(e, shortcut, upper) ==> e.ctrlKey && e.altKey && !e.shiftKey && !e.metaKey
  {
    MatchIff(e, shortcut, upper);
    var modifiers := Modifiers(shortcut);
    assert "Ctrl" in modifiers && "Alt" in modifiers;
    assert "Shift" !in modifiers && "Meta" !in modifiers;
    SingleKeysOfMap();
    assert NormaliseKey("f", upper) == "F" && NormaliseKey("F", upper) == "F";
  }
}
