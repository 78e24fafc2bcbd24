/** The JavaScript values carried by the portal's JSON payloads, and the built-in
    operations on them that the server and the pages rely on: truthiness,
    `String.prototype.trim`, property access, `Object.entries`, string
    conversion, ASCII case mapping and `includes`. */
module JsValues {

  /** A JSON value as JavaScript sees it once parsed. Numbers are integers here.
      An object is its list of own properties in insertion order; objects built
      by `JSON.parse` never repeat a key. */
  datatype JsValue =
    | Undefined
    | Null
    | Bool(b: bool)
    | Num(n: int)
    | Str(s: string)
    | Arr(items: seq<JsValue>)
    | Obj(fields: seq<(string, JsValue)>)

  predicate IsNullish(v: JsValue) {
    v.Undefined? || v.Null?
  }

  /** Whether `v` counts as true in a condition, `||` or `&&`. */
  predicate Truthy(v: JsValue) {
    match v
    case Undefined => false
    case Null => false
    case Bool(b) => b
    case Num(n) => n != 0
    case Str(s) => s != ""
    case Arr(_) => true
    case Obj(_) => true
  }

  /** `a || b`. */
  function Or(a: JsValue, b: JsValue): (r: JsValue)
    ensures Truthy(a) ==> r == a
    ensures !Truthy(a) ==> r == b
  {
    if Truthy(a) then a else b
  }

  /** The characters `String.prototype.trim` strips: ECMAScript WhiteSpace and
      LineTerminator code points. */
  predicate IsWhitespace(c: char) {
    var n := c as int;
    n == 0x09 || n == 0x0A || n == 0x0B || n == 0x0C || n == 0x0D || n == 0x20
    || n == 0xA0 || n == 0x1680 || (0x2000 <= n <= 0x200A) || n == 0x2028
    || n == 0x2029 || n == 0x202F || n == 0x205F || n == 0x3000 || n == 0xFEFF
  }

  predicate IsBlank(s: string) {
    forall i | 0 <= i < |s| :: IsWhitespace(s[i])
  }

  lemma BlankCons(c: char, t: string)
    requires IsWhitespace(c) && IsBlank(t)
    ensures IsBlank([c] + t)
  {
    assert forall i | 1 <= i < |t| + 1 :: ([c] + t)[i] == t[i - 1];
  }

  lemma BlankSnoc(t: string, c: char)
    requires IsBlank(t) && IsWhitespace(c)
    ensures IsBlank(t + [c])
  {
    assert forall i | 0 <= i < |t| :: (t + [c])[i] == t[i];
  }

  /** Drops leading whitespace: the result is a suffix of `s`, all that was
      dropped is whitespace, and it does not start with whitespace. */
  function TrimStart(s: string): (r: string)
    ensures |r| <= |s| && r == s[|s| - |r|..]
    ensures IsBlank(s[..|s| - |r|])
    ensures r == [] || !IsWhitespace(r[0])
    decreases |s|
  {
    if s != [] && IsWhitespace(s[0]) then
      var t := s[1..];
      var r := TrimStart(t);
      assert t[|t| - |r|..] == s[|s| - |r|..];
      assert s[..|s| - |r|] == [s[0]] + t[..|t| - |r|];
      BlankCons(s[0], t[..|t| - |r|]);
      r
    else
      assert s[|s|..] == [];
      s
  }

  /** Drops trailing whitespace: the result is a prefix of `s`, all that was
      dropped is whitespace, and it does not end with whitespace. */
  function TrimEnd(s: string): (r: string)
    ensures |r| <= |s| && r == s[..|r|]
    ensures IsBlank(s[|r|..])
    ensures r == [] || !IsWhitespace(r[|r| - 1])
    decreases |s|
  {
    if s != [] && IsWhitespace(s[|s| - 1]) then
      var t := s[..|s| - 1];
      var r := TrimEnd(t);
      assert t[..|r|] == s[..|r|];
      assert s[|r|..] == t[|r|..] + [s[|s| - 1]];
      BlankSnoc(t[|r|..], s[|s| - 1]);
      r
    else
      assert s[..|s|] == s;
      s
  }

  /** `s.trim()`. */
  function Trim(s: string): string {
    TrimEnd(TrimStart(s))
  }

  /** A string trims to the empty string exactly when it is all whitespace. */
  lemma TrimEmptyIffBlank(s: string)
    ensures Trim(s) == "" <==> IsBlank(s)
  {
    var t := TrimStart(s);
    assert t[0..] == t;
    assert s[..|s|] == s;
  }

  /** Trimming a string without whitespace changes nothing. */
  lemma TrimNoWhitespace(s: string)
    requires forall j | 0 <= j < |s| :: !IsWhitespace(s[j])
    ensures Trim(s) == s
  {
    assert TrimStart(s) == s;
  }

  /** The server's `isFilled`: false for null or undefined, for a string that is
      empty once trimmed and for an empty array; true for everything else,
      0 and false included. */
  predicate IsFilled(v: JsValue) {
    if IsNullish(v) then false
    else if v.Str? && Trim(v.s) == "" then false
    else if v.Arr? && |v.items| == 0 then false
    else true
  }

  /** `isFilled` in terms of blankness rather than trimming. */
  lemma IsFilledIff(v: JsValue)
    ensures IsFilled(v) <==>
      !(IsNullish(v) || (v.Str? && IsBlank(v.s)) || (v.Arr? && v.items == []))
  {
    if v.Str? { TrimEmptyIffBlank(v.s); }
  }

  /** Where `isFilled` and JavaScript truthiness part ways: 0, false and ""
      are falsy yet 0 and false are filled; a blank string and an empty array
      are truthy yet not filled. */
  lemma FilledVersusTruthy(s: string)
    requires s != "" && IsBlank(s)
    ensures IsFilled(Num(0)) && !Truthy(Num(0))
    ensures IsFilled(Bool(false)) && !Truthy(Bool(false))
    ensures !IsFilled(Str(s)) && Truthy(Str(s))
    ensures !IsFilled(Arr([])) && Truthy(Arr([]))
  {
    TrimEmptyIffBlank(s);
  }

  /** `v[key]` for a value that is not null or undefined (reading a property of
      null or undefined throws, which callers model themselves). Only objects
      carry the keys the portal reads. */
  function Get(v: JsValue, key: string): (r: JsValue)
    ensures !v.Obj? ==> r == Undefined
    ensures v.Obj? && (forall k | 0 <= k < |v.fields| :: v.fields[k].0 != key) ==> r == Undefined
    ensures v.Obj? ==> forall k | 0 <= k < |v.fields| && v.fields[k].0 == key
                         && (forall j | 0 <= j < k :: v.fields[j].0 != key) :: r == v.fields[k].1
  {
    if v.Obj? then Lookup(v.fields, key) else Undefined
  }

  function Lookup(fields: seq<(string, JsValue)>, key: string): (r: JsValue)
    ensures (forall k | 0 <= k < |fields| :: fields[k].0 != key) ==> r == Undefined
    ensures forall k | 0 <= k < |fields| && fields[k].0 == key && (forall j | 0 <= j < k :: fields[j].0 != key) :: r == fields[k].1
  {
    if fields == [] then Undefined
    else if fields[0].0 == key then fields[0].1
    else Lookup(fields[1..], key)
  }

  /** `Object.entries(v)`: an object's own properties; the characters of a
      string and the elements of an array under their decimal indices; nothing
      for numbers and booleans. */
  function Entries(v: JsValue): (r: seq<(string, JsValue)>)
    requires !IsNullish(v)
    ensures v.Obj? ==> r == v.fields
    ensures v.Str? ==> |r| == |v.s| && forall i | 0 <= i < |v.s| :: r[i] == (NatToString(i), Str([v.s[i]]))
    ensures v.Arr? ==> |r| == |v.items| && forall i | 0 <= i < |v.items| :: r[i] == (NatToString(i), v.items[i])
    ensures v.Num? || v.Bool? ==> r == []
  {
    match v
    case Obj(fields) => fields
    case Str(s) => IndexedEntries(CharValues(s))
    case Arr(items) => IndexedEntries(items)
    case _ => []
  }

  /** The one-character strings of `s`, in order. */
  function CharValues(s: string): (r: seq<JsValue>)
    ensures |r| == |s| && forall i | 0 <= i < |s| :: r[i] == Str([s[i]])
  {
    seq(|s|, i requires 0 <= i < |s| => Str([s[i]]))
  }

  /** Pairs each element with its decimal index. */
  function IndexedEntries(items: seq<JsValue>): (r: seq<(string, JsValue)>)
    ensures |r| == |items| && forall i | 0 <= i < |items| :: r[i] == (NatToString(i), items[i])
  {
    seq(|items|, i requires 0 <= i < |items| => (NatToString(i), items[i]))
  }

  predicate IsDigit(c: char) {
    '0' <= c <= '9'
  }

  /** The decimal numeral of `n`, no leading zeros. */
  function NatToString(n: nat): (r: string)
    ensures |r| >= 1 && forall i | 0 <= i < |r| :: IsDigit(r[i])
    ensures |r| > 1 ==> r[0] != '0'
  {
    if n < 10 then [('0' as int + n) as char]
    else NatToString(n / 10) + [('0' as int + n % 10) as char]
  }

  /** The value of a string of decimal digits. */
  function DigitsValue(s: string): nat
    requires forall i | 0 <= i < |s| :: IsDigit(s[i])
  {
    if s == [] then 0
    else
      var last := s[|s| - 1];
      assert IsDigit(last);
      10 * DigitsValue(s[..|s| - 1]) + (last as int - '0' as int)
  }

  /** Printing a number and reading it back gives the number: distinct numbers
      have distinct numerals. */
  lemma {:induction false} NatToStringRoundTrip(n: nat)
    ensures DigitsValue(NatToString(n)) == n
  {
    if n >= 10 {
      NatToStringRoundTrip(n / 10);
      var s := NatToString(n);
      assert s[..|s| - 1] == NatToString(n / 10);
    }
  }

  lemma NatToStringInjective(m: nat, n: nat)
    requires NatToString(m) == NatToString(n)
    ensures m == n
  {
    NatToStringRoundTrip(m);
    NatToStringRoundTrip(n);
  }

  function IntToString(n: int): string {
    if n < 0 then "-" + NatToString(-n) else NatToString(n)
  }

  /** `parts.join(sep)`. */
  function Join(parts: seq<string>, sep: string): string {
    if parts == [] then ""
    else if |parts| == 1 then parts[0]
    else parts[0] + sep + Join(parts[1..], sep)
  }

  /** `String(v)`, which is also what `"label" + v` and a template literal
      produce: arrays join their elements with commas, null and undefined
      elements showing as empty. */
  function Show(v: JsValue): (r: string)
    ensures v.Arr? && v.items == [] ==> r == ""
    ensures v.Obj? ==> r == "[object Object]"
    ensures v.Str? ==> r == v.s
    decreases v
  {
    match v
    case Undefined => "undefined"
    case Null => "null"
    case Bool(b) => if b then "true" else "false"
    case Num(n) => IntToString(n)
    case Str(s) => s
    case Arr(items) =>
      Join(seq(|items|, i requires 0 <= i < |items| =>
        if IsNullish(items[i]) then "" else Show(items[i])), ",")
    case Obj(_) => "[object Object]"
  }

  /** Joining empty pieces leaves only the separators, one fewer than the
      pieces. */
  lemma {:induction false} JoinEmpties(parts: seq<string>, sep: char)
    requires forall i | 0 <= i < |parts| :: parts[i] == ""
    ensures Join(parts, [sep]) == seq(if parts == [] then 0 else |parts| - 1, _ => sep)
    decreases |parts|
  {
    if |parts| > 1 {
      JoinEmpties(parts[1..], sep);
      assert Join(parts, [sep]) == "" + [sep] + Join(parts[1..], [sep]);
    }
  }

  /** An array of null and undefined elements prints as its commas alone. */
  lemma ShowNullishItems(items: seq<JsValue>)
    requires forall i | 0 <= i < |items| :: IsNullish(items[i])
    ensures Show(Arr(items)) == seq(if items == [] then 0 else |items| - 1, _ => ',')
  {
    var parts := seq(|items|, i requires 0 <= i < |items| =>
      if IsNullish(items[i]) then "" else Show(items[i]));
    JoinEmpties(parts, ',');
  }

  /** A one-element array prints as its element, or as "" when that is
      null or undefined. */
  lemma ShowSingleItem(v: JsValue)
    ensures Show(Arr([v])) == if IsNullish(v) then "" else Show(v)
  {
    var parts := seq(1, i requires 0 <= i < 1 => if IsNullish([v][i]) then "" else Show([v][i]));
    assert parts == [if IsNullish(v) then "" else Show(v)];
  }

  function LowerChar(c: char): char {
    if 'A' <= c <= 'Z' then (c as int + 32) as char else c
  }

  function UpperChar(c: char): char {
    if 'a' <= c <= 'z' then (c as int - 32) as char else c
  }

  /** `s.toLowerCase()` on ASCII letters. */
  function ToLower(s: string): (r: string)
    ensures |r| == |s| && forall i | 0 <= i < |s| :: r[i] == LowerChar(s[i])
  {
    seq(|s|, i requires 0 <= i < |s| => LowerChar(s[i]))
  }

  /** `s.toUpperCase()` on ASCII letters. */
  function ToUpper(s: string): (r: string)
    ensures |r| == |s| && forall i | 0 <= i < |s| :: r[i] == UpperChar(s[i])
  {
    seq(|s|, i requires 0 <= i < |s| => UpperChar(s[i]))
  }

  predicate OccursAt(s: string, t: string, i: int) {
    0 <= i <= |s| - |t| && s[i..i + |t|] == t
  }

  /** `s.includes(t)`: `t` occurs in `s` at some position. */
  predicate Includes(s: string, t: string) {
    exists i | 0 <= i <= |s| - |t| :: OccursAt(s, t, i)
  }

  lemma IncludesEmpty(s: string)
    ensures Includes(s, "")
  {
    assert OccursAt(s, "", 0);
  }

  /** `s.substring(0, n)` for a non-negative `n`. */
  function Prefix(s: string, n: nat): (r: string)
    ensures |r| <= n && r <= s
    ensures |s| <= n ==> r == s
    ensures |s| >= n ==> |r| == n
  {
    if |s| <= n then s else s[..n]
  }

  /** `s.split(sep)` for a one-character separator: the pieces between the
      separators, in order. */
  function Split(s: string, sep: char): (r: seq<string>)
    ensures |r| >= 1
    ensures forall k | 0 <= k < |r| :: sep !in r[k]
    decreases |s|
  {
    if s == [] then [""]
    else
      var rest := Split(s[1..], sep);
      if s[0] == sep then [""] + rest
      else [[s[0]] + rest[0]] + rest[1..]
  }

  /** Every character of a piece is a character of the split string. */
  lemma {:induction false} SplitPiecesWithin(s: string, sep: char, k: int)
    requires 0 <= k < |Split(s, sep)|
    ensures forall j | 0 <= j < |Split(s, sep)[k]| :: Split(s, sep)[k][j] in s
    decreases |s|
  {
    if s != [] {
      var rest := Split(s[1..], sep);
      if s[0] == sep {
        if k > 0 { SplitPiecesWithin(s[1..], sep, k - 1); }
      } else if k == 0 {
        SplitPiecesWithin(s[1..], sep, 0);
        var piece := [s[0]] + rest[0];
        forall j | 0 <= j < |piece|
          ensures piece[j] in s
        {
          if j > 0 { assert piece[j] == rest[0][j - 1]; }
        }
      } else {
        SplitPiecesWithin(s[1..], sep, k);
      }
    }
  }

  /** There is one more piece than there are separators. */
  lemma {:induction false} SplitCount(s: string, sep: char)
    ensures |Split(s, sep)| == multiset(s)[sep] + 1
    decreases |s|
  {
    if s != [] {
      SplitCount(s[1..], sep);
      assert s == [s[0]] + s[1..];
      assert multiset(s) == multiset([s[0]]) + multiset(s[1..]);
    }
  }

  /** Joining the pieces with the separator gives the string back. */
  lemma {:induction false} SplitJoin(s: string, sep: char)
    ensures Join(Split(s, sep), [sep]) == s
    decreases |s|
  {
    if s != [] {
      SplitJoin(s[1..], sep);
      var rest := Split(s[1..], sep);
      if s[0] == sep {
        assert Join([""] + rest, [sep]) == "" + [sep] + Join(rest, [sep]);
      } else {
        var r := [[s[0]] + rest[0]] + rest[1..];
        if |rest| == 1 {
          assert Join(r, [sep]) == [s[0]] + rest[0];
        } else {
          assert r[1..] == rest[1..];
          assert Join(rest, [sep]) == rest[0] + [sep] + Join(rest[1..], [sep]);
          assert Join(r, [sep]) == [s[0]] + rest[0] + [sep] + Join(rest[1..], [sep]);
        }
      }
      assert s == [s[0]] + s[1..];
    }
  }
}
