/**
 * The "Add a new position" page of the web front end: the shortcut
 * recorder driven by key events, the Register and Clear buttons, and the
 * Add button with its validation chain and backend call.
 */
module NewPositionPage {
  import opened Basics
  import opened Protocol
  import opened ConfigUtils
  import TrayMain

  /** The two texts of the shortcut button. */
  const INIT_TEXT: string := "Click to register shortcut"
  const CAPTURING_TEXT: string := "Listening for input..."

  /** Browser modifier keys and the accelerator names they stand for. */
  const MODIFIER_MAP: map<string, string> := map[
    "Command" := "CmdOrCtrl", "Control" := "CmdOrCtrl", "Alt" := "Alt", "Option" := "Option",
    "Shift" := "Shift", "Super" := "Super", "Meta" := "Meta"]

  predicate IsModifier(key: string) {
    key in MODIFIER_MAP
  }

  /** `lowercaseMap`: a shifted symbol on a US layout and the key it is typed with. */
  function UnshiftedOf(key: string): Option<string> {
    if |key| != 1 then None
    else match key[0]
      case '!' => Some("1")
      case '@' => Some("2")
      case '#' => Some("3")
      case '$' => Some("4")
      case '%' => Some("5")
      case '^' => Some("6")
      case '&' => Some("7")
      case '*' => Some("8")
      case '(' => Some("9")
      case ')' => Some("0")
      case '_' => Some("-")
      case '+' => Some("=")
      case '{' => Some("[")
      case '}' => Some("]")
      case ':' => Some(";")
      case '"' => Some("'")
      case '<' => Some(",")
      case '>' => Some(".")
      case '?' => Some("/")
      case '|' => Some("\\")
      case '~' => Some("`")
      case _ => None
  }

  /** `lowercaseMap.get(key) || key`. */
  function NormaliseKey(key: string): string {
    match UnshiftedOf(key)
    case Some(k) => k
    case None => key
  }

  /** Normalising twice is normalising once: no unshifted key is itself a shifted symbol. */
  lemma NormaliseKeyIdempotent(key: string)
    ensures NormaliseKey(NormaliseKey(key)) == NormaliseKey(key)
    ensures UnshiftedOf(key).Some? ==> |NormaliseKey(key)| == 1 && NormaliseKey(key) != key
  {
  }

  /** Examples: "!" is "1", "?" is "/", and keys that are not shifted symbols pass through. */
  lemma NormaliseKeyExamples(key: string)
    ensures NormaliseKey("!") == "1" && NormaliseKey("?") == "/" && NormaliseKey("\"") == "'"
    ensures |key| != 1 ==> NormaliseKey(key) == key
    ensures NormaliseKey("a") == "a" && NormaliseKey("Shift") == "Shift"
  {
  }

  // ---- `split("+")` and its inverse ----

  /** JavaScript's `s.split("+")`: the empty string splits into one empty part. */
  function SplitPlus(s: string): (parts: seq<string>)
    ensures |parts| >= 1
    decreases |s|
  {
    if |s| == 0 then [""]
    else if s[0] == '+' then [""] + SplitPlus(s[1..])
    else var rest := SplitPlus(s[1..]); [[s[0]] + rest[0]] + rest[1..]
  }

  /** `parts.join("+")`. */
  function JoinPlus(parts: seq<string>): string
    requires |parts| >= 1
    decreases |parts|
  {
    if |parts| == 1 then parts[0] else parts[0] + "+" + JoinPlus(parts[1..])
  }

  /** Splitting and joining again gives the same string back. */
  lemma {:induction false} JoinSplit(s: string)
    ensures JoinPlus(SplitPlus(s)) == s
    decreases |s|
  {
    if |s| > 0 {
      var rest := SplitPlus(s[1..]);
      JoinSplit(s[1..]);
      if s[0] == '+' {
        assert (["" ] + rest)[1..] == rest;
        assert s == "" + "+" + JoinPlus(rest);
      } else {
        var parts := [[s[0]] + rest[0]] + rest[1..];
        if |rest| == 1 {
          assert s == [s[0]] + s[1..];
        } else {
          assert parts[1..] == rest[1..];
          assert JoinPlus(rest) == rest[0] + "+" + JoinPlus(rest[1..]);
          assert s == [s[0]] + s[1..];
        }
      }
    }
  }

  /** A string without "+" is one part. */
  lemma {:induction false} SplitNoPlus(s: string)
    requires forall i :: 0 <= i < |s| ==> s[i] != '+'
    ensures SplitPlus(s) == [s]
    decreases |s|
  {
    if |s| > 0 {
      SplitNoPlus(s[1..]);
      assert [s[0]] + s[1..] == s;
    }
  }

  /** Two "+"-free strings joined by "+" split into exactly those two parts. */
  lemma {:induction false} SplitPair(a: string, b: string)
    requires forall i :: 0 <= i < |a| ==> a[i] != '+'
    requires forall i :: 0 <= i < |b| ==> b[i] != '+'
    ensures SplitPlus(a + "+" + b) == [a, b]
    decreases |a|
  {
    if |a| == 0 {
      assert a + "+" + b == "+" + b;
      assert ("+" + b)[1..] == b;
      SplitNoPlus(b);
    } else {
      SplitPair(a[1..], b);
      assert (a + "+" + b)[1..] == a[1..] + "+" + b;
      assert [a[0]] + a[1..] == a;
    }
  }

  // ---- The shortcut recorder ----

  /** `shortcutValue` and `keystrokeText`. */
  datatype Recorder = Recorder(shortcut: string, status: string)

  /** The recorder after a key event, and whether `preventDefault` was called. */
  datatype KeyResult = KeyResult(rec: Recorder, prevented: bool)

  /** `prev ? prev + "+" + key : key`. */
  function AppendKey(prev: string, key: string): string {
    if prev == "" then key else prev + "+" + key
  }

  /** `keystrokeHandler` on one `keydown` event. */
  function KeystrokeStep(r: Recorder, key: string, defaultPrevented: bool): KeyResult {
    if defaultPrevented || r.status != CAPTURING_TEXT then KeyResult(r, false)
    else
      var clicked := NormaliseKey(key);
      if IsModifier(clicked) then
        var existing := SplitPlus(r.shortcut);
        var isTwoSameModifiers := |existing| == 1 && existing[0] == clicked;
        var isMaxTwoModifiers := |existing| > 1;
        if isTwoSameModifiers || isMaxTwoModifiers then KeyResult(r.(shortcut := clicked), false)
        else KeyResult(r.(shortcut := AppendKey(r.shortcut, clicked)), false)
      else
        var newVal := AppendKey(r.shortcut, clicked);
        KeyResult(Recorder(newVal, newVal), true)
  }

  /**
   * What one key event does, case by case: ignored unless capturing and not
   * already handled; a repeated single modifier or a third modifier
   * restarts the shortcut; another modifier is appended (as the browser key,
   * not its accelerator name) and capturing goes on; any other key is
   * appended, becomes the button text and is consumed.
   */
  lemma {:induction false} KeystrokeCases(r: Recorder, key: string, defaultPrevented: bool)
    ensures var k := KeystrokeStep(r, key, defaultPrevented);
      (defaultPrevented || r.status != CAPTURING_TEXT) ==> k == KeyResult(r, false)
    ensures var k := KeystrokeStep(r, key, defaultPrevented); var c := NormaliseKey(key);
      !defaultPrevented && r.status == CAPTURING_TEXT && IsModifier(c) ==>
        k.rec.status == CAPTURING_TEXT && !k.prevented &&
        (k.rec.shortcut == c <==> r.shortcut == c || |SplitPlus(r.shortcut)| > 1 || r.shortcut == "") &&
        (r.shortcut != c && |SplitPlus(r.shortcut)| == 1 ==> k.rec.shortcut == AppendKey(r.shortcut, c))
    ensures var k := KeystrokeStep(r, key, defaultPrevented); var c := NormaliseKey(key);
      !defaultPrevented && r.status == CAPTURING_TEXT && !IsModifier(c) ==>
        k.prevented && k.rec.shortcut == AppendKey(r.shortcut, c) && k.rec.status == k.rec.shortcut
  {
    var c := NormaliseKey(key);
    if !defaultPrevented && r.status == CAPTURING_TEXT && IsModifier(c) {
      if r.shortcut != c && |SplitPlus(r.shortcut)| == 1 && r.shortcut != "" {
        // the appended shortcut is longer than the modifier
        assert |AppendKey(r.shortcut, c)| > |c|;
      }
      if |SplitPlus(r.shortcut)| == 1 {
        JoinSplit(r.shortcut);
      }
      if r.shortcut == "" {
        assert SplitPlus(r.shortcut) == [""];
      }
    }
  }

  /** No modifier key is empty or contains "+". */
  lemma ModifierKeysArePlain(key: string)
    requires IsModifier(key)
    ensures |key| > 0 && forall i :: 0 <= i < |key| ==> key[i] != '+'
  {
  }

  /** While capturing, the shortcut is empty or at most two modifier keys. */
  predicate ModifierChain(s: string) {
    s == "" ||
    (|SplitPlus(s)| <= 2 && forall i :: 0 <= i < |SplitPlus(s)| ==> IsModifier(SplitPlus(s)[i]))
  }

  predicate RecorderValid(r: Recorder) {
    r.status == CAPTURING_TEXT ==> ModifierChain(r.shortcut)
  }

  /**
   * The two-modifier limit: every key event keeps the recorder valid. (A
   * browser key is never the capturing text itself.)
   */
  lemma KeystrokeKeepsModifierLimit(r: Recorder, key: string, defaultPrevented: bool)
    requires RecorderValid(r) && key != CAPTURING_TEXT
    ensures RecorderValid(KeystrokeStep(r, key, defaultPrevented).rec)
  {
    var k := KeystrokeStep(r, key, defaultPrevented);
    if !defaultPrevented && r.status == CAPTURING_TEXT {
      var c := NormaliseKey(key);
      if IsModifier(c) {
        ModifierKeysArePlain(c);
        SplitNoPlus(c);
        var existing := SplitPlus(r.shortcut);
        if !((|existing| == 1 && existing[0] == c) || |existing| > 1) {
          if r.shortcut == "" {
            assert k.rec.shortcut == c;
          } else {
            assert |existing| == 1 && IsModifier(existing[0]);
            JoinSplit(r.shortcut);
            assert r.shortcut == existing[0];
            ModifierKeysArePlain(r.shortcut);
            SplitPair(r.shortcut, c);
          }
        }
      } else {
        var v := AppendKey(r.shortcut, c);
        assert forall i :: 0 <= i < |CAPTURING_TEXT| ==> CAPTURING_TEXT[i] != '+';
        if r.shortcut == "" {
          assert v == c;
          assert c == key || |c| == 1;
        } else {
          assert v[|r.shortcut|] == '+';
        }
      }
    }
  }

  /** Register, then Control, Shift and "!": the browser keys are kept and the shifted "1" ends capturing. */
  lemma RecorderScenario()
    ensures KeystrokeStep(Recorder("", CAPTURING_TEXT), "Control", false).rec == Recorder("Control", CAPTURING_TEXT)
    ensures KeystrokeStep(Recorder("Control", CAPTURING_TEXT), "Shift", false).rec ==
      Recorder("Control+Shift", CAPTURING_TEXT)
    ensures KeystrokeStep(Recorder("Control+Shift", CAPTURING_TEXT), "!", false) ==
      KeyResult(Recorder("Control+Shift+1", "Control+Shift+1"), true)
  {
    FirstModifierStep();
    SecondModifierStep();
    ShiftedDigitStep();
  }

  lemma FirstModifierStep()
    ensures KeystrokeStep(Recorder("", CAPTURING_TEXT), "Control", false).rec == Recorder("Control", CAPTURING_TEXT)
  {
    assert SplitPlus("") == [""];
    assert NormaliseKey("Control") == "Control" && IsModifier("Control");
  }

  lemma SecondModifierStep()
    ensures KeystrokeStep(Recorder("Control", CAPTURING_TEXT), "Shift", false).rec ==
      Recorder("Control+Shift", CAPTURING_TEXT)
  {
    SplitNoPlus("Control");
    assert NormaliseKey("Shift") == "Shift" && IsModifier("Shift");
    assert |"Control"| != |"Shift"|;
    ControlShift();
  }

  lemma ControlShift()
    ensures "Control" + "+" + "Shift" == "Control+Shift"
  {
  }

  lemma ShiftedDigitStep()
    ensures KeystrokeStep(Recorder("Control+Shift", CAPTURING_TEXT), "!", false) ==
      KeyResult(Recorder("Control+Shift+1", "Control+Shift+1"), true)
  {
    ShiftedOne();
    assert "Control+Shift" + "+" + "1" == "Control+Shift+1";
  }

  lemma ShiftedOne()
    ensures NormaliseKey("!") == "1" && !IsModifier("1")
  {
  }

  /** A third modifier restarts the shortcut, and so does a repeated single one. */
  lemma RecorderRestartScenario()
    ensures var r := Recorder("Control+Shift", CAPTURING_TEXT);
      KeystrokeStep(r, "Alt", false).rec == Recorder("Alt", CAPTURING_TEXT)
    ensures KeystrokeStep(Recorder("Shift", CAPTURING_TEXT), "Shift", false).rec == Recorder("Shift", CAPTURING_TEXT)
  {
    ThirdModifierStep();
    RepeatedModifierStep();
  }

  lemma ThirdModifierStep()
    ensures KeystrokeStep(Recorder("Control+Shift", CAPTURING_TEXT), "Alt", false).rec == Recorder("Alt", CAPTURING_TEXT)
  {
    ControlShift();
    SplitPair("Control", "Shift");
    assert NormaliseKey("Alt") == "Alt" && IsModifier("Alt");
  }

  lemma RepeatedModifierStep()
    ensures KeystrokeStep(Recorder("Shift", CAPTURING_TEXT), "Shift", false).rec == Recorder("Shift", CAPTURING_TEXT)
  {
    SplitNoPlus("Shift");
    assert NormaliseKey("Shift") == "Shift" && IsModifier("Shift");
  }

  // ---- The Add button ----

  /** The result of JavaScript's `Number(value)` on the height input. */
  datatype JsNumber = NaN | Infinite(positive: bool) | Finite(x: real)

  /** `ErrorCodes`. */
  datatype FormError = NoName | WrongValue | ValueString | Duplicate

  function ErrorText(e: FormError): string {
    match e
    case NoName => "Name cannot be empty"
    case WrongValue => "Value has to be between 6200 and 12700"
    case ValueString => "Value has to be a number"
    case Duplicate => "A position with that name already exists"
  }

  /** The validation chain of the Add handler, in its order of precedence. */
  function Validate(name: string, v: JsNumber): (r: Option<FormError>)
    ensures name == "" ==> r == Some(NoName)
    ensures name != "" && (v.NaN? || v == Finite(0.0)) ==> r == Some(ValueString)
    ensures name != "" && !(v.NaN? || v == Finite(0.0)) ==>
      (r == Some(WrongValue) <==> v.Infinite? || v.x < MIN_HEIGHT as real || v.x > MAX_HEIGHT as real)
    ensures r == None <==> name != "" && v.Finite? && MIN_HEIGHT as real <= v.x <= MAX_HEIGHT as real
  {
    if name == "" then Some(NoName)
    else if v.NaN? || v == Finite(0.0) then Some(ValueString)
    else if v.Infinite? || v.x < MIN_HEIGHT as real || v.x > MAX_HEIGHT as real then Some(WrongValue)
    else None
  }

  /**
   * The page's state. `closed` records `appWindow.close()`. The backend is
   * the `create_new_elem` command over the config file.
   */
  class NewPositionForm {
    var name: string
    var value: string
    var error: Option<FormError>
    var shortcutValue: string
    var keystrokeText: string
    var closed: bool

    predicate Valid()
      reads this
    {
      RecorderValid(Recorder(shortcutValue, keystrokeText))
    }

    constructor ()
      ensures name == "" && value == "7200" && error == None && !closed
      ensures shortcutValue == "" && keystrokeText == INIT_TEXT
      ensures Valid()
    {
      name := "";
      value := "7200";
      error := None;
      shortcutValue := "";
      keystrokeText := INIT_TEXT;
      closed := false;
    }

    /** `handleChangeName`. */
    method ChangeName(newVal: string)
      modifies this`name
      ensures name == newVal
    {
      name := newVal;
    }

    /** `handleChangeValue`. */
    method ChangeValue(newVal: string)
      modifies this`value
      ensures value == newVal
    {
      value := newVal;
    }

    /** `keystrokeHandler` on a `keydown` event; returns whether it called `preventDefault`. */
    method KeyDown(key: string, defaultPrevented: bool) returns (prevented: bool)
      modifies this`shortcutValue, this`keystrokeText
      ensures var k := KeystrokeStep(Recorder(old(shortcutValue), old(keystrokeText)), key, defaultPrevented);
        shortcutValue == k.rec.shortcut && keystrokeText == k.rec.status && prevented == k.prevented
      ensures old(Valid()) && key != CAPTURING_TEXT ==> Valid()
    {
      if Valid() && key != CAPTURING_TEXT {
        KeystrokeKeepsModifierLimit(Recorder(shortcutValue, keystrokeText), key, defaultPrevented);
      }
      prevented := false;
      if defaultPrevented {
        return;
      }
      if keystrokeText != CAPTURING_TEXT {
        return;
      }
      var clickedKey := NormaliseKey(key);
      if IsModifier(clickedKey) {
        var existingModifiers := SplitPlus(shortcutValue);
        var isTwoSameModifiers := |existingModifiers| == 1 && existingModifiers[0] == clickedKey;
        var isMaxTwoModifiers := |existingModifiers| > 1;
        if isTwoSameModifiers || isMaxTwoModifiers {
          shortcutValue := clickedKey;
          return;
        }
        shortcutValue := AppendKey(shortcutValue, clickedKey);
        return;
      }
      var newVal := AppendKey(shortcutValue, clickedKey);
      keystrokeText := newVal;
      shortcutValue := newVal;
      prevented := true;
    }

    /** `handleRegisterKeyClick`: empty shortcut, start capturing. */
    method Register()
      modifies this`shortcutValue, this`keystrokeText
      ensures shortcutValue == "" && keystrokeText == CAPTURING_TEXT && Valid()
    {
      shortcutValue := "";
      keystrokeText := CAPTURING_TEXT;
    }

    /** The "Clear shortcut" button: empty shortcut, back to the initial text. */
    method Clear()
      modifies this`shortcutValue, this`keystrokeText
      ensures shortcutValue == "" && keystrokeText == INIT_TEXT && Valid()
    {
      shortcutValue := "";
      keystrokeText := INIT_TEXT;
    }

    /**
     * The Add button; `parsed` is `Number(value)`. A validation error is
     * shown and nothing else happens. Otherwise the error is cleared and
     * `create_new_elem` is invoked; a height that is not a whole number does
     * not deserialise into the command's `u16`, so the call is rejected and
     * nothing more happens. A "duplicate" reply shows the duplicate error,
     * any other reply closes the window.
     */
    method ClickAdd(file: ConfigFile, parsed: JsNumber)
      modifies this`error, this`closed, file
      ensures var check := Validate(old(name), parsed);
        check.Some? ==> error == check && closed == old(closed) && file.stored == old(file.stored) && file.writes == old(file.writes)
      ensures var check := Validate(old(name), parsed);
        check.None? && parsed.x != parsed.x.Floor as real ==>
          error == None && closed == old(closed) && file.stored == old(file.stored) && file.writes == old(file.writes)
      ensures var check := Validate(old(name), parsed);
        check.None? && parsed.x == parsed.x.Floor as real ==>
          var inserted := InsertPosition(old(file.stored).savedPositions, old(name), parsed.x.Floor);
          match inserted
          case None => error == Some(Duplicate) && closed == old(closed) && file.stored == old(file.stored) && file.writes == old(file.writes)
          case Some(ps) => error == None && closed && file.stored == old(file.stored).(savedPositions := ps) && file.writes == old(file.writes) + 1
    {
      var locErr := Validate(name, parsed);
      if locErr.Some? {
        error := locErr;
        return;
      }
      error := None;
      if parsed.x != parsed.x.Floor as real {
        return;
      }
      var resp := TrayMain.CreateNewElem(file, name, parsed.x.Floor);
      if resp == TrayMain.DUPLICATE_REPLY {
        error := Some(Duplicate);
      } else {
        closed := true;
      }
    }
  }
}
