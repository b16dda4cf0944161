/** JSON-like values as the dashboards read them from the store, and the
    JavaScript conversions the dashboards apply to them: `String(x)`,
    `Array.prototype.join`, `JSON.stringify`, truthiness, `Number(s)`,
    `parseInt(s)`, `trim`, `toLowerCase` and `includes`.
    Numbers are integers only. */
module JsValues {
  import Seqs

  datatype Option<T> = None | Some(value: T) {
    function GetOr(default: T): T {
      if Some? then value else default
    }
  }

  /** A parsed JSON value. Object members keep their creation order, from
      which `JSON.stringify` derives the order it writes them in. */
  datatype Json =
    | JNull
    | JBool(b: bool)
    | JInt(n: int)
    | JStr(s: string)
    | JArr(elems: seq<Json>)
    | JObj(members: seq<Member>)

  datatype Member = Member(key: string, value: Json)

  /** The value of the first member named `key`, or `undefined` (None). */
  function Field(members: seq<Member>, key: string): (r: Option<Json>)
    ensures r.Some? <==> exists i :: 0 <= i < |members| && members[i].key == key
    ensures r.Some? ==> exists i :: 0 <= i < |members| && members[i] == Member(key, r.value)
  {
    if members == [] then None
    else if members[0].key == key then Some(members[0].value)
    else
      var r := Field(members[1..], key);
      assert forall i :: 0 < i < |members| ==> members[i] == members[1..][i - 1];
      r
  }

  /** JavaScript truthiness of a value that is present (`if (x)`). */
  predicate Truthy(v: Json) {
    match v
    case JNull => false
    case JBool(b) => b
    case JInt(n) => n != 0
    case JStr(s) => s != ""
    case _ => true
  }

  /** Truthiness of a lookup result; `undefined` (None) is falsy. */
  predicate TruthyAnswer(a: Option<Json>) {
    a.Some? && Truthy(a.value)
  }

  // ---------------------------------------------------------------------
  // Decimal numerals

  predicate IsDigit(c: char) {
    '0' <= c <= '9'
  }

  function DigitValue(c: char): nat
    requires IsDigit(c)
  {
    c as int - '0' as int
  }

  function DigitChar(d: nat): (c: char)
    requires d < 10
    ensures IsDigit(c) && DigitValue(c) == d
  {
    ('0' as int + d) as char
  }

  /** The value of a string of decimal digits (0 for the empty string). */
  function DecimalValue(ds: string): nat
    requires forall i :: 0 <= i < |ds| ==> IsDigit(ds[i])
    decreases |ds|
  {
    if ds == [] then 0
    else 10 * DecimalValue(ds[..|ds| - 1]) + DigitValue(ds[|ds| - 1])
  }

  /** The digits `String(n)` prints for a natural number. */
  function NatToString(n: nat): (r: string)
    ensures |r| >= 1
    ensures forall i :: 0 <= i < |r| ==> IsDigit(r[i])
    ensures |r| > 1 ==> r[0] != '0'
  {
    if n < 10 then [DigitChar(n)]
    else NatToString(n / 10) + [DigitChar(n % 10)]
  }

  /** Reading back the digits of `String(n)` gives `n`. */
  lemma {:induction false} NatToStringRoundTrip(n: nat)
    ensures DecimalValue(NatToString(n)) == n
  {
    if n >= 10 {
      NatToStringRoundTrip(n / 10);
      var ds := NatToString(n);
      assert ds[..|ds| - 1] == NatToString(n / 10);
    }
  }

  /** `String(n)` for an integer. */
  function IntToString(n: int): (r: string)
    ensures |r| >= 1
  {
    if n < 0 then "-" + NatToString(-n) else NatToString(n)
  }

  // ---------------------------------------------------------------------
  // String(x), join and JSON.stringify

  /** `parts.join(sep)`. */
  function Join(parts: seq<string>, sep: string): (r: string)
    ensures parts == [] ==> r == ""
    ensures |parts| == 1 ==> r == parts[0]
  {
    if parts == [] then ""
    else if |parts| == 1 then parts[0]
    else parts[0] + sep + Join(parts[1..], sep)
  }

  /** `String(v)` for a present value. Arrays print as their elements joined
      by ",", where a null element prints as the empty string. */
  function ToStr(v: Json): string {
    match v
    case JNull => "null"
    case JBool(b) => if b then "true" else "false"
    case JInt(n) => IntToString(n)
    case JStr(s) => s
    case JArr(es) => JoinValues(es, ",")
    case JObj(_) => "[object Object]"
  }

  /** `arr.join(sep)` over an array of values: null elements print as "". */
  function JoinValues(es: seq<Json>, sep: string): string
    decreases es
  {
    Join(seq(|es|, i requires 0 <= i < |es| => if es[i].JNull? then "" else ToStr(es[i])), sep)
  }

  function HexDigit(d: nat): char
    requires d < 16
  {
    if d < 10 then DigitChar(d) else ('a' as int + d - 10) as char
  }

  /** The escape `JSON.stringify` writes for one character of a string. */
  function EscapeChar(c: char): string {
    if c == '"' then "\\\""
    else if c == '\\' then "\\\\"
    else if c == '\U{8}' then "\\b"
    else if c == '\U{C}' then "\\f"
    else if c == '\n' then "\\n"
    else if c == '\r' then "\\r"
    else if c == '\t' then "\\t"
    else if (c as int) < 0x20 then "\\u00" + [HexDigit(c as int / 16), HexDigit(c as int % 16)]
    else [c]
  }

  function EscapeString(s: string): string
    decreases |s|
  {
    if s == [] then "" else EscapeChar(s[0]) + EscapeString(s[1..])
  }

  function QuoteString(s: string): string {
    "\"" + EscapeString(s) + "\""
  }

  /** Keys that are array indices: the canonical decimal numerals below
      2^32 - 1. */
  predicate IsArrayIndex(k: string) {
    |k| >= 1 && AllDigits(k) && (|k| == 1 || k[0] != '0') && DecimalValue(k) < 0xFFFF_FFFF
  }

  function IndexValue(k: string): int {
    if AllDigits(k) then DecimalValue(k) else 0
  }

  predicate IsIndexMember(m: Member) {
    IsArrayIndex(m.key)
  }

  function MemberIndex(m: Member): int {
    IndexValue(m.key)
  }

  /** The order an object's own members are enumerated in, by
      `JSON.stringify` among others: array-index keys first, ascending,
      then the other keys in creation order. */
  function OwnMembers(ms: seq<Member>): (r: seq<Member>)
    ensures multiset(r) == multiset(ms)
  {
    Seqs.IndexFirst(ms, IsIndexMember, MemberIndex)
  }

  /** The members `JSON.stringify` writes: array-index keys first, in
      ascending numeric order, then the others as they were created. */
  lemma OwnMembersOrder(ms: seq<Member>)
    ensures var r := OwnMembers(ms); var n := |Seqs.Select(ms, IsIndexMember)|;
      && (forall i :: 0 <= i < n ==> IsArrayIndex(r[i].key))
      && (forall i :: n <= i < |r| ==> !IsArrayIndex(r[i].key))
      && (forall i, j :: 0 <= i < j < n ==> IndexValue(r[i].key) <= IndexValue(r[j].key))
      && r[n..] == Seqs.Select(ms, Seqs.Not(IsIndexMember))
  {
    Seqs.IndexFirstOrder(ms, IsIndexMember, MemberIndex);
  }

  /** An object with no array-index key is written in creation order. */
  lemma OwnMembersNoIndex(ms: seq<Member>)
    requires forall i :: 0 <= i < |ms| ==> !IsArrayIndex(ms[i].key)
    ensures OwnMembers(ms) == ms
  {
    Seqs.IndexFirstOrder(ms, IsIndexMember, MemberIndex);
    var sel := Seqs.Select(ms, IsIndexMember);
    assert sel == [];
    Seqs.SelectAll(ms, Seqs.Not(IsIndexMember));
  }

  /** An object created with a non-index key `k` and then an index key
      `j` lists `j` first. */
  lemma OwnMembersIndexFirst(k: string, a: Json, j: string, b: Json)
    requires !IsArrayIndex(k) && IsArrayIndex(j)
    ensures OwnMembers([Member(k, a), Member(j, b)]) == [Member(j, b), Member(k, a)]
  {
    var mk, mj := Member(k, a), Member(j, b);
    assert Seqs.Select([mk, mj], IsIndexMember) == [mj] by {
      assert [mk, mj][..1] == [mk];
      assert [mk][..0] == [];
    }
    assert Seqs.Select([mk, mj], Seqs.Not(IsIndexMember)) == [mk] by {
      assert [mk, mj][..1] == [mk];
      assert [mk][..0] == [];
    }
    assert Seqs.SortBy([mj], MemberIndex) == [mj] by {
      assert [mj][..0] == [];
    }
  }

  /** The answer `{"b":1,"1":2}` is written with the member `"1"` first,
      as `{"1":2,"b":1}`. */
  lemma OwnMembersExample()
    ensures OwnMembers([Member("b", JInt(1)), Member("1", JInt(2))]) == [Member("1", JInt(2)), Member("b", JInt(1))]
  {
    assert IsArrayIndex("1") && !IsArrayIndex("b");
    OwnMembersIndexFirst("b", JInt(1), "1", JInt(2));
  }

  /** `JSON.stringify(v)`: no whitespace, object members in the order
      `OwnMembers` gives. */
  function Stringify(v: Json): string {
    match v
    case JNull => "null"
    case JBool(b) => if b then "true" else "false"
    case JInt(n) => IntToString(n)
    case JStr(s) => QuoteString(s)
    case JArr(es) => "[" + Join(seq(|es|, i requires 0 <= i < |es| => Stringify(es[i])), ",") + "]"
    case JObj(ms) =>
      var os := OwnMembers(ms);
      "{" + Join(seq(|os|, i requires 0 <= i < |os| =>
        assert os[i] in multiset(ms);
        QuoteString(os[i].key) + ":" + Stringify(os[i].value)), ",") + "}"
  }

  // ---------------------------------------------------------------------
  // Characters and substrings

  /** The characters `String.prototype.trim` removes. */
  predicate IsJsWhitespace(c: char) {
    c == '\t' || c == '\n' || c == '\U{B}' || c == '\U{C}' || c == '\r' || c == ' '
    || c == '\U{A0}' || c == '\U{1680}' || ('\U{2000}' <= c <= '\U{200A}')
    || c == '\U{2028}' || c == '\U{2029}' || c == '\U{202F}' || c == '\U{205F}'
    || c == '\U{3000}' || c == '\U{FEFF}'
  }

  /** `s.trim()` is empty exactly when every character is whitespace. */
  predicate IsBlank(s: string) {
    forall i :: 0 <= i < |s| ==> IsJsWhitespace(s[i])
  }

  function LowerChar(c: char): char {
    if 'A' <= c <= 'Z' then (c as int + 32) as char else c
  }

  /** `s.toLowerCase()` on the ASCII letters. */
  function Lower(s: string): (r: string)
    ensures |r| == |s|
    ensures forall i :: 0 <= i < |s| ==> r[i] == LowerChar(s[i])
  {
    seq(|s|, i requires 0 <= i < |s| => LowerChar(s[i]))
  }

  /** `s.includes(sub)`. */
  predicate Includes(s: string, sub: string) {
    exists i :: 0 <= i <= |s| - |sub| && OccursAt(s, sub, i)
  }

  predicate OccursAt(s: string, sub: string, i: nat) {
    i + |sub| <= |s| && s[i..i + |sub|] == sub
  }

  // ---------------------------------------------------------------------
  // Number(s) and parseInt(s)

  /** The longest prefix of `s` whose characters all satisfy `p`. */
  function TakeWhile(s: string, p: char -> bool): (r: string)
    ensures |r| <= |s| && r == s[..|r|]
    ensures forall i :: 0 <= i < |r| ==> p(r[i])
    ensures |r| < |s| ==> !p(s[|r|])
    decreases |s|
  {
    if s == [] || !p(s[0]) then [] else [s[0]] + TakeWhile(s[1..], p)
  }

  /** `s` without its leading JavaScript whitespace. */
  function TrimStart(s: string): string {
    s[|TakeWhile(s, IsJsWhitespace)|..]
  }

  /** `s` without its trailing JavaScript whitespace. */
  function TrimEnd(s: string): (r: string)
    ensures |r| <= |s|
    decreases |s|
  {
    if s != [] && IsJsWhitespace(s[|s| - 1]) then TrimEnd(s[..|s| - 1]) else s
  }

  /** `s.trim()`. */
  function Trim(s: string): string {
    TrimEnd(TrimStart(s))
  }

  lemma {:induction false} TrimEndEmpty(s: string)
    ensures TrimEnd(s) == [] <==> IsBlank(s)
    decreases |s|
  {
    if s != [] && IsJsWhitespace(s[|s| - 1]) {
      TrimEndEmpty(s[..|s| - 1]);
      assert s == s[..|s| - 1] + [s[|s| - 1]];
    }
  }

  /** `s.trim()` is empty exactly when `s` is made of whitespace only. */
  lemma TrimEmptyIffBlank(s: string)
    ensures Trim(s) == [] <==> IsBlank(s)
  {
    var k := |TakeWhile(s, IsJsWhitespace)|;
    var t := TrimStart(s);
    TrimEndEmpty(t);
    if IsBlank(s) {
      assert k == |s|;
    } else if k < |s| {
      assert !IsJsWhitespace(t[0]);
    }
  }

  /** Lower-casing keeps whitespace as it is and is idempotent. */
  lemma LowerProperties(s: string)
    ensures IsBlank(Lower(s)) <==> IsBlank(s)
    ensures Lower(Lower(s)) == Lower(s)
  {
    assert forall i :: 0 <= i < |s| ==> (IsJsWhitespace(Lower(s)[i]) <==> IsJsWhitespace(s[i]));
  }

  predicate AllDigits(s: string) {
    forall i :: 0 <= i < |s| ==> IsDigit(s[i])
  }

  predicate IsHexDigit(c: char) {
    IsDigit(c) || 'a' <= c <= 'f' || 'A' <= c <= 'F'
  }

  function HexDigitValue(c: char): nat
    requires IsHexDigit(c)
  {
    if IsDigit(c) then DigitValue(c)
    else if 'a' <= c <= 'f' then c as int - 'a' as int + 10
    else c as int - 'A' as int + 10
  }

  function HexValue(ds: string): nat
    requires forall i :: 0 <= i < |ds| ==> IsHexDigit(ds[i])
    decreases |ds|
  {
    if ds == [] then 0
    else 16 * HexValue(ds[..|ds| - 1]) + HexDigitValue(ds[|ds| - 1])
  }

  /** The sign a leading '+' or '-' gives, and the text after it. */
  function SplitSign(t: string): (int, string) {
    if |t| > 0 && t[0] == '-' then (-1, t[1..])
    else if |t| > 0 && t[0] == '+' then (1, t[1..])
    else (1, t)
  }

  /** The digits `parseInt` reads after the sign: a "0x" prefix selects
      base 16, otherwise base 10; no digits at all is NaN (None). */
  function ParseUnsigned(u: string): Option<nat> {
    if |u| >= 2 && u[0] == '0' && (u[1] == 'x' || u[1] == 'X') then
      var ds := TakeWhile(u[2..], IsHexDigit);
      if ds == [] then None else Some(HexValue(ds))
    else
      var ds := TakeWhile(u, IsDigit);
      if ds == [] then None else Some(DecimalValue(ds))
  }

  /** `parseInt(s)` with no radix: leading whitespace and a sign are
      skipped and the longest run of digits that follows is read. */
  function ParseInt(s: string): Option<int> {
    var (sign, u) := SplitSign(TrimStart(s));
    match ParseUnsigned(u)
    case None => None
    case Some(v) => Some(sign * v)
  }

  /** `Number(s)` for the integer forms: surrounding whitespace is ignored,
      the empty string is 0, and an optionally signed run of decimal digits
      is its value. Every other form is NaN here (None). */
  function ToNumber(s: string): Option<int> {
    var t := Trim(s);
    if t == [] then Some(0)
    else
      var (sign, u) := SplitSign(t);
      if u != [] && AllDigits(u) then Some(sign * DecimalValue(u)) else None
  }

  lemma TakeWhileAll(s: string, p: char -> bool)
    requires forall i :: 0 <= i < |s| ==> p(s[i])
    ensures TakeWhile(s, p) == s
  {
  }

  /** `String(n)` has no surrounding whitespace and splits into a sign and
      the digits of |n|. */
  lemma IntToStringShape(n: int)
    ensures TrimStart(IntToString(n)) == IntToString(n)
    ensures TrimEnd(IntToString(n)) == IntToString(n)
    ensures SplitSign(IntToString(n)) == (if n < 0 then -1 else 1, NatToString(if n < 0 then -n else n))
  {
    var s := IntToString(n);
    assert !IsJsWhitespace(s[0]);
    assert TakeWhile(s, IsJsWhitespace) == [];
    assert !IsJsWhitespace(s[|s| - 1]);
  }

  /** `parseInt(String(n))` is `n`. */
  lemma ParseIntOfString(n: int)
    ensures ParseInt(IntToString(n)) == Some(n)
  {
    var m: nat := if n < 0 then -n else n;
    var ds := NatToString(m);
    IntToStringShape(n);
    NatToStringRoundTrip(m);
    TakeWhileAll(ds, IsDigit);
    assert ParseUnsigned(ds) == Some(m);
  }

  /** `Number(String(n))` is `n`. */
  lemma ToNumberOfString(n: int)
    ensures ToNumber(IntToString(n)) == Some(n)
  {
    var m: nat := if n < 0 then -n else n;
    IntToStringShape(n);
    NatToStringRoundTrip(m);
  }
}
