/** The form validation helper (`validateForm`) and the string trimming it relies on.
    Each required input is an object whose `value` is read and whose `error` class the
    helper sets or clears. */
module FormValidation {

  /** The characters `String.prototype.trim` removes: the ECMAScript WhiteSpace set (tab,
      vertical tab, form feed, space, no-break space, the byte-order mark and the other
      space separators of Unicode category Zs) and the LineTerminator set (line feed,
      carriage return, line and paragraph separators). */
  predicate IsTrimmed(c: char)
  {
    c == '\U{0009}' || c == '\U{000B}' || c == '\U{000C}' || c == '\U{0020}' ||
    c == '\U{00A0}' || c == '\U{FEFF}' ||
    c == '\U{1680}' || ('\U{2000}' <= c <= '\U{200A}') || c == '\U{202F}' || c == '\U{205F}' ||
    c == '\U{3000}' ||
    c == '\U{000A}' || c == '\U{000D}' || c == '\U{2028}' || c == '\U{2029}'
  }

  predicate AllTrimmed(s: string)
  {
    forall i :: 0 <= i < |s| ==> IsTrimmed(s[i])
  }

  /** The string without its leading whitespace. */
  function TrimStart(s: string): string
    decreases |s|
  {
    if s != [] && IsTrimmed(s[0]) then TrimStart(s[1..]) else s
  }

  /** The string without its trailing whitespace. */
  function TrimEnd(s: string): string
    decreases |s|
  {
    if s != [] && IsTrimmed(s[|s| - 1]) then TrimEnd(s[..|s| - 1]) else s
  }

  /** `TrimStart` cuts off exactly the leading whitespace: what it keeps is a suffix that
      is empty or starts with a non-whitespace character, and every character it drops is
      whitespace. */
  lemma {:induction false} TrimStartCutsLeadingBlank(s: string)
    ensures |TrimStart(s)| <= |s| && TrimStart(s) == s[|s| - |TrimStart(s)|..]
    ensures forall i :: 0 <= i < |s| - |TrimStart(s)| ==> IsTrimmed(s[i])
    ensures TrimStart(s) == [] || !IsTrimmed(TrimStart(s)[0])
    decreases |s|
  {
    if s != [] && IsTrimmed(s[0]) {
      var t := s[1..];
      TrimStartCutsLeadingBlank(t);
      assert TrimStart(s) == TrimStart(t);
      var n := |t| - |TrimStart(t)|;
      assert t[n..] == s[n + 1..];
      forall i | 1 <= i < n + 1 ensures IsTrimmed(s[i]) {
        assert s[i] == t[i - 1];
      }
    } else {
      assert s[0..] == s;
    }
  }

  /** `TrimEnd` cuts off exactly the trailing whitespace. */
  lemma {:induction false} TrimEndCutsTrailingBlank(s: string)
    ensures |TrimEnd(s)| <= |s| && TrimEnd(s) == s[..|TrimEnd(s)|]
    ensures forall i :: |TrimEnd(s)| <= i < |s| ==> IsTrimmed(s[i])
    ensures TrimEnd(s) == [] || !IsTrimmed(TrimEnd(s)[|TrimEnd(s)| - 1])
    decreases |s|
  {
    if s != [] && IsTrimmed(s[|s| - 1]) {
      var t := s[..|s| - 1];
      TrimEndCutsTrailingBlank(t);
      assert TrimEnd(s) == TrimEnd(t);
      var n := |TrimEnd(t)|;
      assert t[..n] == s[..n];
      forall i | n <= i < |s| - 1 ensures IsTrimmed(s[i]) {
        assert s[i] == t[i];
      }
    } else {
      assert s[..|s|] == s;
    }
  }

  /** `String.prototype.trim`. */
  function Trim(s: string): string
  {
    TrimEnd(TrimStart(s))
  }

  /** A value is blank, and fails validation, exactly when it is whitespace only
      (the empty string included). */
  lemma TrimEmptyIffBlank(s: string)
    ensures Trim(s) == [] <==> AllTrimmed(s)
  {
    var t := TrimStart(s);
    TrimStartCutsLeadingBlank(s);
    TrimEndCutsTrailingBlank(t);
    if t != [] {
      assert t[0] == s[|s| - |t|];
    }
  }

  /** Trimming keeps the characters between the first and the last non-whitespace
      character unchanged: the result is a contiguous piece of the input, with only
      whitespace cut off on either side. */
  lemma TrimIsInfix(s: string)
    ensures exists a, b :: 0 <= a <= b <= |s| && Trim(s) == s[a..b] &&
                           AllTrimmed(s[..a]) && AllTrimmed(s[b..])
  {
    var t := TrimStart(s);
    TrimStartCutsLeadingBlank(s);
    TrimEndCutsTrailingBlank(t);
    var a := |s| - |t|;
    var r := TrimEnd(t);
    var b := a + |r|;
    assert r == t[..|r|] == s[a..b];
    forall i | 0 <= i < |s| - b ensures IsTrimmed(s[b..][i]) {
      assert s[b..][i] == t[|r| + i];
    }
  }

  /** A required `<input>` or `<textarea>`: its value and whether it carries the `error` class. */
  class Field {
    var value: string
    var error: bool

    constructor (value: string)
      ensures this.value == value && !error
    {
      this.value := value;
      error := false;
    }
  }

  /** `validateForm`: marks each blank required field with `error`, clears the mark on
      the others, and reports whether none was blank. */
  method ValidateForm(inputs: seq<Field>) returns (isValid: bool)
    modifies set f | f in inputs
    ensures isValid <==> forall k :: 0 <= k < |inputs| ==> Trim(inputs[k].value) != []
    ensures forall k :: 0 <= k < |inputs| ==> inputs[k].error == (Trim(inputs[k].value) == [])
    ensures forall k :: 0 <= k < |inputs| ==> inputs[k].value == old(inputs[k].value)
  {
    isValid := true;
    var i := 0;
    while i < |inputs|
      invariant 0 <= i <= |inputs|
      invariant forall k :: 0 <= k < |inputs| ==> inputs[k].value == old(inputs[k].value)
      invariant forall k :: 0 <= k < i ==> inputs[k].error == (Trim(inputs[k].value) == [])
      invariant isValid <==> forall k :: 0 <= k < i ==> Trim(inputs[k].value) != []
    {
      var input := inputs[i];
      if Trim(input.value) == [] {
        isValid := false;
        input.error := true;
      } else {
        input.error := false;
      }
      i := i + 1;
    }
  }
}
