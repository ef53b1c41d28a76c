/** JavaScript values as the notification API inspects its arguments, and
    the two language operations it applies to them: truthiness (`!!x`) and
    `String.prototype.trim`. */
module JsValues {

  /** An argument as passed by a caller. Numbers are finite reals: NaN and
      the infinities are not modelled. */
  datatype Value = Undefined | Null | Bool(b: bool) | Num(n: real) | Str(s: string) | Object

  /** A JavaScript default parameter: it replaces the argument only when
      the argument is `undefined`. */
  function WithDefault(v: Value, default: Value): (r: Value)
    ensures v != Undefined ==> r == v
    ensures v == Undefined ==> r == default
  {
    if v.Undefined? then default else v
  }

  /** A defaulted argument is no longer `undefined`, so a second default
      (the callee's own, after the caller has applied its default) leaves
      it as it is. */
  lemma WithDefaultAbsorbs(v: Value, d: Value, d2: Value)
    requires d != Undefined
    ensures WithDefault(v, d) != Undefined
    ensures WithDefault(WithDefault(v, d), d2) == WithDefault(v, d)
  {
  }

  /** ECMAScript ToBoolean, the meaning of `!!v`. */
  predicate Truthy(v: Value) {
    match v
    case Undefined => false
    case Null => false
    case Bool(b) => b
    case Num(n) => n != 0.0
    case Str(s) => s != ""
    case Object => true
  }

  /** The code points `trim` strips: the WhiteSpace and LineTerminator
      productions of ECMA-262, with the Unicode Zs category written out. */
  predicate IsWhitespace(c: char) {
    || c == '\t' || c == '\n' || c == '\U{B}' || c == '\U{C}' || c == '\r'
    || c == ' ' || c == '\U{A0}' || c == '\U{1680}'
    || ('\U{2000}' <= c <= '\U{200A}')
    || c == '\U{2028}' || c == '\U{2029}' || c == '\U{202F}' || c == '\U{205F}'
    || c == '\U{3000}' || c == '\U{FEFF}'
  }

  /** Drops the leading whitespace: the result is the suffix of `s` that
      starts at its first non-whitespace character. */
  function TrimStart(s: string): (r: string)
    ensures |r| <= |s| && r == s[|s| - |r|..]
    ensures r == [] || !IsWhitespace(r[0])
    ensures forall i :: 0 <= i < |s| - |r| ==> IsWhitespace(s[i])
  {
    if |s| > 0 && IsWhitespace(s[0]) then TrimStart(s[1..]) else s
  }

  /** Drops the trailing whitespace: the result is the prefix of `s` that
      ends at its last non-whitespace character. */
  function TrimEnd(s: string): (r: string)
    ensures |r| <= |s| && r == s[..|r|]
    ensures r == [] || !IsWhitespace(r[|r| - 1])
    ensures forall i :: |r| <= i < |s| ==> IsWhitespace(s[i])
  {
    if |s| > 0 && IsWhitespace(s[|s| - 1]) then TrimEnd(s[..|s| - 1]) else s
  }

  /** `String.prototype.trim`. */
  function Trim(s: string): (r: string)
    ensures |r| <= |s|
    ensures r == [] || (!IsWhitespace(r[0]) && !IsWhitespace(r[|r| - 1]))
  {
    TrimEnd(TrimStart(s))
  }

  /** Whatever `trim` keeps is a contiguous piece of the input, and
      everything it drops on either side is whitespace. */
  lemma TrimIsSlice(s: string)
    ensures exists k {:trigger s[k..]} ::
              && 0 <= k <= |s| - |Trim(s)|
              && Trim(s) == s[k..][..|Trim(s)|]
              && (forall i :: 0 <= i < k ==> IsWhitespace(s[i]))
              && (forall i :: k + |Trim(s)| <= i < |s| ==> IsWhitespace(s[i]))
  {
    var t := TrimStart(s);
    var k := |s| - |t|;
    assert t == s[k..];
    forall i | k + |Trim(s)| <= i < |s|
      ensures IsWhitespace(s[i])
    {
      assert s[i] == t[i - k];
    }
  }

  /** `trim` yields the empty string exactly when the input is all
      whitespace: the condition under which `add` rejects a message. */
  lemma TrimEmptyIff(s: string)
    ensures Trim(s) == [] <==> forall i :: 0 <= i < |s| ==> IsWhitespace(s[i])
  {
    var t := TrimStart(s);
    var k := |s| - |t|;
    assert t == s[k..];
    assert t != [] ==> t[0] == s[k];
    assert forall i :: k <= i < |s| ==> s[i] == t[i - k];
  }

  /** Trimming twice is trimming once. */
  lemma TrimIdempotent(s: string)
    ensures Trim(Trim(s)) == Trim(s)
  {
    var r := Trim(s);
    assert TrimStart(r) == r;
    assert TrimEnd(r) == r;
  }
}
