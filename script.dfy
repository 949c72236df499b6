/**
 * static/script.js, registration page: the password-strength score and its
 * four bars, the length and confirmation messages, the client-side email
 * and phone checks, and the rule that blocks submitting the form. The page
 * is its validation boxes (id to "hidden"), the class lists of the four
 * strength bars and whether the submit button is disabled; the server's
 * availability reply is a parameter.
 */
module Script {
  import opened Wrappers
  import opened Text
  import Registro

  /** JavaScript's `length`: UTF-16 code units, two for a character beyond U+FFFF. */
  function JsLength(s: string): (n: nat)
    ensures |s| <= n <= 2 * |s|
    ensures n == 0 <==> |s| == 0
  {
    if |s| == 0 then 0
    else (if s[0] as int > 0xFFFF then 2 else 1) + JsLength(s[1..])
  }

  lemma JsLengthCountsSurrogates()
    ensures JsLength("a\U{1F600}") == 3
  {
    assert "a\U{1F600}"[1..] == "\U{1F600}";
  }

  predicate HasUpper(p: string) { exists i :: 0 <= i < |p| && IsAsciiUpper(p[i]) }
  predicate HasDigit(p: string) { exists i :: 0 <= i < |p| && IsDigit(p[i]) }
  predicate HasOther(p: string) { exists i :: 0 <= i < |p| && !IsAsciiLetter(p[i]) && !IsDigit(p[i]) }

  function Point(b: bool): nat { if b then 1 else 0 }

  /** The strength score: one point per satisfied criterion. */
  function Strength(p: string): (n: nat)
    ensures n <= 5
    ensures JsLength(p) >= 8 ==> n >= 2
    ensures JsLength(p) < 6 ==> n <= 3
    ensures n == 5 <==> JsLength(p) >= 8 && HasUpper(p) && HasDigit(p) && HasOther(p)
  {
    Point(JsLength(p) >= 6) + Point(JsLength(p) >= 8) + Point(HasUpper(p)) + Point(HasDigit(p)) + Point(HasOther(p))
  }

  const Gray := "bg-gray-200"
  const Red := "bg-red-500"
  const Yellow := "bg-yellow-500"
  const Green := "bg-green-500"
  const Colours: set<string> := {Red, Yellow, Green}

  /** The colour of every lit bar. */
  function BarColour(strength: nat): (c: string)
    ensures c in Colours
    ensures c == Red <==> strength <= 2
    ensures c == Yellow <==> strength == 3
    ensures c == Green <==> strength >= 4
  {
    if strength <= 2 then Red else if strength == 3 then Yellow else Green
  }

  /** How many bars are lit: none for an empty password, else `Math.min(strength, 4)`. */
  function LitBars(p: string): (n: nat)
    ensures n <= 4
    ensures n == 0 <==> |p| == 0 || Strength(p) == 0
    ensures JsLength(p) >= 8 ==> n >= 2
    ensures |p| > 0 && Strength(p) <= 4 ==> n == Strength(p)
  {
    if |p| == 0 then 0 else if Strength(p) < 4 then Strength(p) else 4
  }

  /** The reset step: colours removed, grey added. */
  function Reset(c: set<string>): set<string> { c - Colours + {Gray} }

  /** A bar's class list after the input handler. */
  function BarAfter(c: set<string>, i: int, p: string): set<string> {
    if i < LitBars(p) then (Reset(c) + {BarColour(Strength(p))}) - {Gray} else Reset(c)
  }

  /**
   * Bar `i` is grey exactly when it is not lit, carries exactly one colour,
   * the shared one, when it is lit, and keeps its other classes.
   */
  lemma BarShowsStrength(c: set<string>, i: int, p: string)
    ensures Gray in BarAfter(c, i, p) <==> i >= LitBars(p)
    ensures BarAfter(c, i, p) * Colours == if i < LitBars(p) then {BarColour(Strength(p))} else {}
    ensures BarAfter(c, i, p) - Colours - {Gray} == c - Colours - {Gray}
  {
  }

  /** The boxes the handlers show and hide. */
  const HandlerBoxIds: seq<string> :=
    ["email-validation", "telefono-validation", "password-validation", "confirm-validation"]

  /** The inputs the submit handler walks. */
  const SubmitInputIds: seq<string> := ["email", "telefono", "password", "confirm-password"]

  /** The boxes the submit handler looks up, `${inputId}-validation`, as written. */
  function AsWrittenBoxIds(): (ids: seq<string>)
    ensures |ids| == 4
  {
    seq(4, i requires 0 <= i < 4 => SubmitInputIds[i] + "-validation")
  }

  /** A listed box that exists and is not hidden. */
  predicate AnyVisible(hidden: map<string, bool>, ids: seq<string>) {
    exists i :: 0 <= i < |ids| && ids[i] in hidden && !hidden[ids[i]]
  }

  /**
   * As written, the submit check looks up "confirm-password-validation",
   * which the page does not toggle: a visible mismatch message does not
   * block submitting.
   */
  lemma ConfirmMismatchDoesNotBlockAsWritten()
    ensures var hidden := map["email-validation" := true, "telefono-validation" := true,
                              "password-validation" := true, "confirm-validation" := false];
      && AnyVisible(hidden, HandlerBoxIds)
      && !AnyVisible(hidden, AsWrittenBoxIds())
  {
    var ids := AsWrittenBoxIds();
    assert ids[3] == "confirm-password-validation";
    assert ids[0] == "email-validation" && ids[1] == "telefono-validation" && ids[2] == "password-validation";
    assert HandlerBoxIds[3] == "confirm-validation";
  }

  /** The page: validation boxes and the four strength bars. */
  class RegistrationPage {
    var hidden: map<string, bool>
    var bars: array<set<string>>
    /** Whether the form's submit button is disabled. */
    var submitDisabled: bool

    ghost predicate Valid()
      reads this
    {
      bars.Length == 4 && forall i :: 0 <= i < |HandlerBoxIds| ==> HandlerBoxIds[i] in hidden
    }

    constructor ()
      ensures Valid() && fresh(bars)
      ensures hidden == map i | i in HandlerBoxIds :: true
      ensures bars[..] == [{Gray}, {Gray}, {Gray}, {Gray}]
      ensures !submitDisabled
    {
      hidden := map i | i in HandlerBoxIds :: true;
      submitDisabled := false;
      bars := new set<string>[4](_ => {Gray});
    }

    /** The first loop of the password handler: every bar back to grey. */
    method ResetBars()
      requires Valid()
      modifies bars
      ensures forall i :: 0 <= i < 4 ==> bars[i] == Reset(old(bars[i]))
    {
      for i := 0 to 4
        invariant forall j :: 0 <= j < i ==> bars[j] == Reset(old(bars[j]))
        invariant forall j :: i <= j < 4 ==> bars[j] == old(bars[j])
      {
        bars[i] := bars[i] - Colours;
        bars[i] := bars[i] + {Gray};
      }
    }

    /** The second loop: the first `lit` bars take `colour` and lose the grey. */
    method PaintBars(lit: nat, colour: string)
      requires Valid() && lit <= 4
      modifies bars
      ensures forall i :: 0 <= i < lit ==> bars[i] == (old(bars[i]) + {colour}) - {Gray}
      ensures forall i :: lit <= i < 4 ==> bars[i] == old(bars[i])
    {
      for i := 0 to lit
        invariant forall j :: 0 <= j < i ==> bars[j] == (old(bars[j]) + {colour}) - {Gray}
        invariant forall j :: i <= j < 4 ==> bars[j] == old(bars[j])
      {
        bars[i] := bars[i] + {colour};
        bars[i] := bars[i] - {Gray};
      }
    }

    /**
     * The password `input` handler: every bar reset; for an empty password
     * the length message hidden and nothing lit; otherwise the message
     * shown iff the password is shorter than 8 and `LitBars` bars coloured.
     */
    method OnPasswordInput(password: string)
      requires Valid()
      modifies this, bars
      ensures Valid() && bars == old(bars) && submitDisabled == old(submitDisabled)
      ensures hidden == old(hidden)["password-validation" := !(0 < JsLength(password) < 8)]
      ensures forall i :: 0 <= i < 4 ==> bars[i] == BarAfter(old(bars[i]), i, password)
    {
      ResetBars();
      var length := JsLength(password);
      if length == 0 {
        hidden := hidden["password-validation" := true];
        return;
      }
      if length < 8 {
        hidden := hidden["password-validation" := false];
      } else {
        hidden := hidden["password-validation" := true];
      }
      var strength := 0;
      if length >= 6 { strength := strength + 1; }
      if length >= 8 { strength := strength + 1; }
      if HasUpper(password) { strength := strength + 1; }
      if HasDigit(password) { strength := strength + 1; }
      if HasOther(password) { strength := strength + 1; }
      assert strength == Strength(password);
      var colour := if strength <= 2 then Red else if strength == 3 then Yellow else Green;
      PaintBars(if strength < 4 then strength else 4, colour);
    }

    /** The confirmation `input` handler: the message is hidden exactly when both fields agree. */
    method OnConfirmInput(password: string, confirmPassword: string)
      requires Valid()
      modifies this
      ensures Valid() && bars == old(bars) && submitDisabled == old(submitDisabled)
      ensures hidden == old(hidden)["confirm-validation" := password == confirmPassword]
    {
      hidden := hidden["confirm-validation" := password == confirmPassword];
    }

    /**
     * The phone `blur` handler: nothing for an empty field, the message for
     * fewer than 10 code units, otherwise the server's availability answer.
     */
    method OnPhoneBlur(telefono: string, disponible: bool)
      requires Valid()
      modifies this
      ensures Valid() && bars == old(bars) && submitDisabled == old(submitDisabled)
      ensures telefono == "" ==> hidden == old(hidden)
      ensures telefono != "" ==>
        hidden == old(hidden)["telefono-validation" := JsLength(telefono) >= 10 && disponible]
    {
      if telefono == "" {
        return;
      }
      if JsLength(telefono) < 10 {
        hidden := hidden["telefono-validation" := false];
      } else {
        hidden := hidden["telefono-validation" := disponible];
      }
    }

    /** The email `blur` handler: nothing for an empty field, the message for a malformed address, else the server's answer. */
    method OnEmailBlur(email: string, disponible: bool)
      requires Valid()
      modifies this
      ensures Valid() && bars == old(bars) && submitDisabled == old(submitDisabled)
      ensures email == "" ==> hidden == old(hidden)
      ensures email != "" ==>
        hidden == old(hidden)["email-validation" := JsEmailOk(email) && disponible]
    {
      if email == "" {
        return;
      }
      if !JsEmailOk(email) {
        hidden := hidden["email-validation" := false];
      } else {
        hidden := hidden["email-validation" := disponible];
      }
    }

    /**
     * The submit handler, with the boxes the handlers actually toggle: the
     * submission is prevented exactly when one of them is visible.
     */
    method OnSubmit() returns (prevented: bool)
      ensures prevented <==> AnyVisible(hidden, HandlerBoxIds)
    {
      prevented := false;
      for i := 0 to |HandlerBoxIds|
        invariant prevented <==> exists j :: 0 <= j < i && HandlerBoxIds[j] in hidden && !hidden[HandlerBoxIds[j]]
      {
        var id := HandlerBoxIds[i];
        if id in hidden && !hidden[id] {
          prevented := true;
        }
      }
    }

    /**
     * The login form's submit listener, which the script also attaches to
     * this page's form, ahead of the blocker: with both fields filled it
     * disables the button, whether or not the submission then goes ahead.
     */
    method DisableOnSubmit(email: string, password: string)
      requires Valid()
      modifies this
      ensures Valid() && hidden == old(hidden) && bars == old(bars)
      ensures submitDisabled <==> old(submitDisabled) || (email != "" && password != "")
    {
      if email != "" && password != "" {
        submitDisabled := true;
      }
    }

    /**
     * A submit event: both listeners in the order they are attached. A
     * blocked submit with both fields filled leaves the button disabled.
     */
    method Submit(email: string, password: string) returns (prevented: bool)
      requires Valid()
      modifies this
      ensures Valid() && hidden == old(hidden) && bars == old(bars)
      ensures submitDisabled <==> old(submitDisabled) || (email != "" && password != "")
      ensures prevented <==> AnyVisible(hidden, HandlerBoxIds)
      ensures prevented && email != "" && password != "" ==> submitDisabled
    {
      DisableOnSubmit(email, password);
      prevented := OnSubmit();
    }
  }

  /** `\s` of JavaScript regular expressions. */
  predicate IsJsSpace(c: char) {
    || c in {' ', '\t', '\n', '\r', '\U{000B}', '\U{000C}', '\U{00A0}', '\U{1680}',
             '\U{2028}', '\U{2029}', '\U{202F}', '\U{205F}', '\U{3000}', '\U{FEFF}'}
    || ('\U{2000}' <= c <= '\U{200A}')
  }

  /**
   * `/^[^\s@]+@[^\s@]+\.[^\s@]+$/`: no whitespace, exactly one '@' with
   * text before it, and after it a '.' with text on both sides.
   */
  predicate JsEmailOk(s: string) {
    && (forall m :: 0 <= m < |s| ==> !IsJsSpace(s[m]))
    && exists i :: 1 <= i < |s| && s[i] == '@'
         && (forall m :: 0 <= m < |s| && s[m] == '@' ==> m == i)
         && exists k :: i + 1 < k < |s| - 1 && s[k] == '.'
  }

  /** The server's split of an address into local part, domain and letters. */
  predicate ServerSplit(t: string, i: int, j: int) {
    1 <= i && i + 2 <= j && j + 3 <= |t| && t[i] == '@' && t[j] == '.'
    && Registro.AllLocal(t[..i]) && Registro.AllDomain(t[i + 1..j]) && Registro.AllLetters(t[j + 1..])
  }

  /** Each character of a server-accepted address is no space, and '@' only at the split. */
  lemma SplitChar(t: string, i: int, j: int, m: int)
    requires ServerSplit(t, i, j) && 0 <= m < |t|
    ensures !IsJsSpace(t[m]) && (t[m] == '@' ==> m == i)
  {
    if m < i {
      assert Registro.LocalChar(t[..i][m]);
    } else if i < m < j {
      assert Registro.DomainChar(t[i + 1..j][m - i - 1]);
    } else if j < m {
      assert IsAsciiLetter(t[j + 1..][m - j - 1]);
    }
  }

  /** Every address the server's pattern accepts passes the client check too. */
  lemma ServerEmailPassesClient(t: string)
    requires Registro.EmailShape(t)
    ensures JsEmailOk(t)
  {
    var i, j :| 1 <= i && i + 2 <= j && j + 3 <= |t| && t[i] == '@' && t[j] == '.'
      && Registro.AllLocal(t[..i]) && Registro.AllDomain(t[i + 1..j]) && Registro.AllLetters(t[j + 1..]);
    assert ServerSplit(t, i, j);
    forall m | 0 <= m < |t|
      ensures !IsJsSpace(t[m]) && (t[m] == '@' ==> m == i)
    {
      SplitChar(t, i, j, m);
    }
    assert i + 1 < j < |t| - 1 && t[j] == '.';
  }

  /** The client check is looser: "a@b.c" passes it, the server's pattern refuses it. */
  lemma ClientLooserThanServer()
    ensures JsEmailOk("a@b.c")
    ensures !Registro.EmailMatches("a@b.c")
  {
    var s := "a@b.c";
    assert s[1] == '@' && s[3] == '.';
    assert IndexOf(s, '@') == Some(1);
    assert LastIndexOf(s, '.') == Some(3);
  }
}
