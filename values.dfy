/** The dynamically typed values that flow through the code: variable values coming from
    the wizard (str, int, bool), from YAML defaults or from JSON metadata, and JSON
    objects.  Python's `int(x)` and `str(x)` are modelled on them.  Floating-point numbers
    are not among them. */
module Values {
  import opened Wrappers
  import opened Strings

  datatype Value =
    | VNull
    | VBool(b: bool)
    | VInt(i: int)
    | VStr(s: string)
    | VList(items: seq<Value>)
    | VObj(fields: map<string, Value>)

  /** A variable mapping, `Dict[str, Any]`. */
  type Variables = map<string, Value>

  /** The ASCII characters Python's `str.isspace` and the regex class `\s` accept. */
  predicate IsSpace(c: char) {
    c == ' ' || c == '\t' || c == '\n' || c == '\r' || c == '\U{B}' || c == '\U{C}'
    || ('\U{1C}' <= c <= '\U{1F}')
  }

  function StripLeft(s: string): (r: string)
    ensures |r| <= |s|
    ensures r != [] ==> !IsSpace(r[0])
  {
    if s != [] && IsSpace(s[0]) then StripLeft(s[1..]) else s
  }

  function StripRight(s: string): (r: string)
    ensures |r| <= |s|
    ensures r != [] ==> !IsSpace(r[|r| - 1])
  {
    if s != [] && IsSpace(s[|s| - 1]) then StripRight(s[..|s| - 1]) else s
  }

  /** `s.strip()` */
  function Strip(s: string): string {
    StripRight(StripLeft(s))
  }

  /** The body of a base-10 integer literal: digits, with single underscores between digits. */
  predicate DigitGroups(b: string) {
    && |b| > 0
    && IsDigit(b[0]) && IsDigit(b[|b| - 1])
    && (forall i :: 0 <= i < |b| ==> IsDigit(b[i]) || b[i] == '_')
    && !Contains(b, "__")
  }

  function DropUnderscores(b: string): (r: string)
    requires forall i :: 0 <= i < |b| ==> IsDigit(b[i]) || b[i] == '_'
    ensures forall i :: 0 <= i < |r| ==> IsDigit(r[i])
  {
    if b == [] then []
    else (if b[0] == '_' then [] else [b[0]]) + DropUnderscores(b[1..])
  }

  /** `int(s)` for a `str`: surrounding whitespace, an optional sign, ASCII digits. */
  function ParseInt(s: string): Option<int> {
    ParseLiteral(Strip(s))
  }

  /** An optional sign followed by digit groups. */
  function ParseLiteral(t: string): (r: Option<int>)
    ensures r.Some? ==> |t| > 0
  {
    if t == [] then None
    else if t[0] == '-' || t[0] == '+' then
      if DigitGroups(t[1..]) then
        var n: int := DigitsValue(DropUnderscores(t[1..]));
        Some(if t[0] == '-' then -n else n)
      else None
    else if DigitGroups(t) then Some(DigitsValue(DropUnderscores(t)))
    else None
  }

  /** `int(v)`; `None` stands for the ValueError or TypeError Python raises. */
  function ToInt(v: Value): (r: Option<int>)
    ensures v.VInt? ==> r == Some(v.i)
    ensures v.VNull? || v.VList? || v.VObj? ==> r.None?
  {
    match v
    case VInt(i) => Some(i)
    case VBool(b) => Some(if b then 1 else 0)
    case VStr(s) => ParseInt(s)
    case _ => None
  }

  /** `str(v)` as Jinja prints a value; the text of a list or a dict is not modelled (`None`). */
  function Str(v: Value): Option<string> {
    match v
    case VStr(s) => Some(s)
    case VInt(i) => Some(IntToString(i))
    case VBool(b) => Some(if b then "True" else "False")
    case VNull => Some("None")
    case _ => None
  }

  /** Python truthiness (`if v:`). */
  predicate Truthy(v: Value) {
    match v
    case VNull => false
    case VBool(b) => b
    case VInt(i) => i != 0
    case VStr(s) => s != ""
    case VList(items) => items != []
    case VObj(fields) => fields != map[]
  }

  /** `d.get(key, default)` on a dict. */
  function Get(d: map<string, Value>, key: string, default: Value): Value {
    if key in d then d[key] else default
  }

  /** `int(str(n))` gives back `n`. */
  lemma ParseIntOfNat(n: nat)
    ensures ParseInt(NatToString(n)) == Some(n)
  {
    ParseIntOfDigits(NatToString(n));
    NatToStringValue(n);
  }

  lemma ParseIntOfDigits(s: string)
    requires |s| > 0 && forall i :: 0 <= i < |s| ==> IsDigit(s[i])
    ensures ParseInt(s) == Some(DigitsValue(s) as int)
  {
    calc {
      ParseInt(s);
      { StripDigits(s); }
      ParseLiteral(s);
      { DigitsAreGroups(s); ParseDigitGroups(s); }
      Some(DigitsValue(DropUnderscores(s)) as int);
      { DropUnderscoresOfDigits(s); }
      Some(DigitsValue(s) as int);
    }
  }

  lemma ParseDigitGroups(s: string)
    requires |s| > 0 && IsDigit(s[0]) && DigitGroups(s)
    ensures ParseLiteral(s) == Some(DigitsValue(DropUnderscores(s)) as int)
  {
  }

  lemma DigitsAreGroups(s: string)
    requires |s| > 0 && forall i :: 0 <= i < |s| ==> IsDigit(s[i])
    ensures DigitGroups(s)
  {
    forall i | 0 <= i <= |s| - 2
      ensures !OccursAt(s, "__", i)
    {
      assert IsDigit(s[i..i + 2][0]);
    }
  }

  lemma StripDigits(s: string)
    requires |s| > 0 && forall i :: 0 <= i < |s| ==> IsDigit(s[i])
    ensures Strip(s) == s
  {
    assert !IsSpace(s[0]);
    assert StripLeft(s) == s;
    assert !IsSpace(s[|s| - 1]);
  }

  lemma {:induction false} DropUnderscoresOfDigits(s: string)
    requires forall i :: 0 <= i < |s| ==> IsDigit(s[i])
    ensures DropUnderscores(s) == s
  {
    if s != [] {
      DropUnderscoresOfDigits(s[1..]);
    }
  }
}
