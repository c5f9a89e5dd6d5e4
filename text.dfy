/** The subset of Go's `strings` and `strconv` packages the core uses:
    white-space trimming, searching, splitting and joining on a one-element
    separator, lower casing, `Atoi` and string order. Text is a sequence of
    Unicode code points; searching, splitting and joining are generic in the
    element, so that they also apply to a Go string taken as its bytes. */
module Text {
  import opened Wrappers

  // ---------------------------------------------------------------------
  // White space

  /** Go's `unicode.IsSpace`: the Latin-1 spaces and the other characters
      with the Unicode White_Space property. */
  predicate IsSpace(c: char) {
    c == '\t' || c == '\n' || c == '\U{000B}' || c == '\U{000C}' || c == '\r' || c == ' '
    || c == '\U{0085}' || c == '\U{00A0}' || c == '\U{1680}'
    || ('\U{2000}' <= c <= '\U{200A}')
    || c == '\U{2028}' || c == '\U{2029}' || c == '\U{202F}' || c == '\U{205F}' || c == '\U{3000}'
  }

  /** `s` without its leading white space. */
  function TrimLeftSpace(s: string): (r: string)
    ensures |r| <= |s| && r == s[|s| - |r|..]
    ensures forall k :: 0 <= k < |s| - |r| ==> IsSpace(s[k])
    ensures r == [] || !IsSpace(r[0])
  {
    if |s| > 0 && IsSpace(s[0]) then TrimLeftSpace(s[1..]) else s
  }

  /** `s` without its trailing white space. */
  function TrimRightSpace(s: string): (r: string)
    ensures |r| <= |s| && r == s[..|r|]
    ensures forall k :: |r| <= k < |s| ==> IsSpace(s[k])
    ensures r == [] || !IsSpace(r[|r| - 1])
  {
    if |s| > 0 && IsSpace(s[|s| - 1]) then TrimRightSpace(s[..|s| - 1]) else s
  }

  /** `strings.TrimSpace`: `s` without its leading and trailing white space. */
  function TrimSpace(s: string): (r: string)
    ensures |r| <= |s|
    ensures r == [] || (!IsSpace(r[0]) && !IsSpace(r[|r| - 1]))
  {
    TrimRightSpace(TrimLeftSpace(s))
  }

  /** What `TrimSpace` keeps is an infix of `s`, and everything it cuts off
      on either side is white space. */
  lemma TrimSpaceInfix(s: string)
    ensures |s| - |TrimLeftSpace(s)| + |TrimSpace(s)| <= |s|
    ensures TrimSpace(s) == s[|s| - |TrimLeftSpace(s)|..|s| - |TrimLeftSpace(s)| + |TrimSpace(s)|]
    ensures forall k :: 0 <= k < |s| - |TrimLeftSpace(s)| ==> IsSpace(s[k])
    ensures forall k :: |s| - |TrimLeftSpace(s)| + |TrimSpace(s)| <= k < |s| ==> IsSpace(s[k])
  {
    var l := TrimLeftSpace(s);
    var r := TrimRightSpace(l);
    var i := |s| - |l|;
    assert l == s[i..];
    assert r == l[..|r|];
    forall k | i + |r| <= k < |s|
      ensures IsSpace(s[k])
    {
      assert s[k] == l[k - i];
    }
  }

  /** Trimming twice trims nothing more. */
  lemma TrimSpaceIdempotent(s: string)
    ensures TrimSpace(TrimSpace(s)) == TrimSpace(s)
  {
    var t := TrimSpace(s);
    assert TrimLeftSpace(t) == t;
    assert TrimRightSpace(t) == t;
  }

  /** Text that neither starts nor ends with white space is left as it is. */
  lemma {:induction false} TrimSpaceUnchanged(s: string)
    requires s == [] || (!IsSpace(s[0]) && !IsSpace(s[|s| - 1]))
    ensures TrimSpace(s) == s
  {
    assert TrimLeftSpace(s) == s;
    assert TrimRightSpace(s) == s;
  }

  // ---------------------------------------------------------------------
  // Searching

  /** `strings.Index(s, string(c))`: the first position of `c`, or -1. */
  function IndexOf<T(==)>(s: seq<T>, c: T): (r: int)
    ensures -1 <= r < |s|
    ensures r >= 0 ==> s[r] == c && c !in s[..r]
    ensures r == -1 <==> c !in s
  {
    if |s| == 0 then -1
    else if s[0] == c then 0
    else
      var i := IndexOf(s[1..], c);
      if i < 0 then -1
      else
        assert s[..i + 1] == [s[0]] + s[1..][..i];
        i + 1
  }

  /** `strings.IndexAny(s, chars)`: the first position of any of `cs`, or -1. */
  function IndexAny(s: string, cs: set<char>): (r: int)
    ensures -1 <= r < |s|
    ensures r >= 0 ==> s[r] in cs
    ensures forall k :: 0 <= k < |s| && (r == -1 || k < r) ==> s[k] !in cs
  {
    if |s| == 0 then -1
    else if s[0] in cs then 0
    else
      var i := IndexAny(s[1..], cs);
      if i < 0 then -1 else i + 1
  }

  /** The first position of any of `cs` is the one before which none occurs. */
  lemma {:induction false} IndexAnyAt(s: string, cs: set<char>, i: int)
    requires 0 <= i < |s| && s[i] in cs
    requires forall k :: 0 <= k < i ==> s[k] !in cs
    ensures IndexAny(s, cs) == i
  {
  }

  /** `sub` occurs in `s` at position `k`. */
  predicate OccursAt<T(==)>(s: seq<T>, sub: seq<T>, k: int) {
    0 <= k && k + |sub| <= |s| && s[k..k + |sub|] == sub
  }

  /** `strings.LastIndex(s, sub)`: the last position where `sub` occurs, or
      -1 (the empty string occurs last at |s|). */
  function LastIndex<T(==)>(s: seq<T>, sub: seq<T>): (r: int)
    ensures r == -1 || OccursAt(s, sub, r)
    ensures forall k :: r < k && OccursAt(s, sub, k) ==> false
    decreases |s|
  {
    if |s| < |sub| then -1
    else if s[|s| - |sub|..] == sub then |s| - |sub|
    else
      var r := LastIndex(s[..|s| - 1], sub);
      assert forall k :: OccursAt(s, sub, k) ==> OccursAt(s[..|s| - 1], sub, k) by {
        forall k | OccursAt(s, sub, k)
          ensures OccursAt(s[..|s| - 1], sub, k)
        {
          OccursInFront(s, sub, k);
        }
      }
      assert r >= 0 ==> OccursAt(s, sub, r) by {
        if r >= 0 {
          OccursInWhole(s, sub, r);
        }
      }
      r
  }

  lemma OccursInFront<T>(s: seq<T>, sub: seq<T>, k: int)
    requires OccursAt(s, sub, k) && s[|s| - |sub|..] != sub
    ensures OccursAt(s[..|s| - 1], sub, k)
  {
    assert k + |sub| < |s|;
    assert s[..|s| - 1][k..k + |sub|] == s[k..k + |sub|];
  }

  lemma OccursInWhole<T>(s: seq<T>, sub: seq<T>, k: int)
    requires |s| > 0 && OccursAt(s[..|s| - 1], sub, k)
    ensures OccursAt(s, sub, k)
  {
    assert s[..|s| - 1][k..k + |sub|] == s[k..k + |sub|];
  }

  /** `strings.TrimPrefix(s, p)`. */
  function TrimPrefix<T(==)>(s: seq<T>, p: seq<T>): (r: seq<T>)
    ensures p <= s ==> p + r == s
    ensures !(p <= s) ==> r == s
  {
    if p <= s then s[|p|..] else s
  }

  // ---------------------------------------------------------------------
  // Splitting and joining on one character

  /** `strings.Split(s, string(c))`: the pieces between the occurrences of
      `c`; never empty, and `Split("", c)` is `[""]`. */
  function Split<T(==)>(s: seq<T>, c: T): (r: seq<seq<T>>)
    ensures |r| >= 1
    ensures forall k :: 0 <= k < |r| ==> c !in r[k]
    decreases |s|
  {
    var i := IndexOf(s, c);
    if i < 0 then [s] else [s[..i]] + Split(s[i + 1..], c)
  }

  /** `strings.Join(parts, string(c))`. */
  function Join<T>(parts: seq<seq<T>>, c: T): (r: seq<T>)
    ensures |parts| == 1 ==> r == parts[0]
  {
    if |parts| == 0 then []
    else if |parts| == 1 then parts[0]
    else parts[0] + [c] + Join(parts[1..], c)
  }

  /** Joining the pieces of a split gives the string back. */
  lemma {:induction false} JoinSplit<T>(s: seq<T>, c: T)
    ensures Join(Split(s, c), c) == s
    decreases |s|
  {
    var i := IndexOf(s, c);
    if i >= 0 {
      var rest := Split(s[i + 1..], c);
      JoinSplit(s[i + 1..], c);
      JoinCons(s[..i], rest, c);
      assert s == s[..i] + [c] + s[i + 1..];
    }
  }

  lemma JoinCons<T>(p: seq<T>, rest: seq<seq<T>>, c: T)
    requires |rest| >= 1
    ensures Join([p] + rest, c) == p + [c] + Join(rest, c)
  {
    assert ([p] + rest)[1..] == rest;
  }

  /** Splitting a join of pieces free of the separator gives the pieces back. */
  lemma {:induction false} SplitJoin<T>(parts: seq<seq<T>>, c: T)
    requires |parts| >= 1
    requires forall k :: 0 <= k < |parts| ==> c !in parts[k]
    ensures Split(Join(parts, c), c) == parts
  {
    if |parts| > 1 {
      JoinCons(parts[0], parts[1..], c);
      assert parts == [parts[0]] + parts[1..];
      SplitCons(parts[0], Join(parts[1..], c), c);
      SplitJoin(parts[1..], c);
    }
  }

  lemma SplitCons<T>(p: seq<T>, t: seq<T>, c: T)
    requires c !in p
    ensures Split(p + [c] + t, c) == [p] + Split(t, c)
  {
    var s := p + [c] + t;
    assert s[..|p|] == p && s[|p|] == c;
    assert IndexOf(s, c) == |p|;
    assert s[|p| + 1..] == t;
  }

  /** Three pieces without the separator, joined by it, split back. */
  lemma {:induction false} SplitThree<T>(x: seq<T>, y: seq<T>, z: seq<T>, c: T)
    requires c !in x && c !in y && c !in z
    ensures Split(x + [c] + (y + [c] + z), c) == [x, y, z]
  {
    SplitCons(x, y + [c] + z, c);
    SplitCons(y, z, c);
    assert IndexOf(z, c) == -1;
  }

  /** A character that is not a digit does not occur in a string of digits. */
  lemma {:induction false} NotInDigits(s: string, c: char)
    requires forall k :: 0 <= k < |s| ==> IsDigit(s[k])
    requires !IsDigit(c)
    ensures c !in s
  {
  }

  /** Joining two non-empty lists of pieces puts the separator between them. */
  lemma {:induction false} JoinAppend<T>(a: seq<seq<T>>, b: seq<seq<T>>, c: T)
    requires |a| >= 1 && |b| >= 1
    ensures Join(a + b, c) == Join(a, c) + [c] + Join(b, c)
  {
    if |a| > 1 {
      assert (a + b)[1..] == a[1..] + b;
      JoinAppend(a[1..], b, c);
    }
  }

  /** `strings.SplitN(s, string(c), 2)`: the text before the first `c` and
      everything after it, or `[s]` alone when `c` does not occur. */
  function SplitFirst<T(==)>(s: seq<T>, c: T): (r: seq<seq<T>>)
    ensures c !in s <==> r == [s]
    ensures c in s ==> |r| == 2 && r[0] + [c] + r[1] == s && c !in r[0]
  {
    var i := IndexOf(s, c);
    if i < 0 then [s]
    else
      assert s == s[..i] + [c] + s[i + 1..];
      [s[..i], s[i + 1..]]
  }
  /** Text with a first separator splits there. */
  lemma SplitFirstCons<T>(p: seq<T>, t: seq<T>, c: T)
    requires c !in p
    ensures SplitFirst(p + [c] + t, c) == [p, t]
  {
    var s := p + [c] + t;
    assert s[..|p|] == p && s[|p|] == c;
    assert IndexOf(s, c) == |p|;
    assert s[|p| + 1..] == t;
  }


  // ---------------------------------------------------------------------
  // Case

  /** `unicode.ToLower` on the characters whose lower case is ASCII: the
      ASCII capitals, U+0130 (capital I with dot above, lowered to `i`) and
      U+212A (the Kelvin sign, lowered to `k`). Every other character is
      left as it is. */
  function LowerChar(c: char): (r: char)
    ensures 'A' <= c <= 'Z' ==> r as int == c as int + 32
    ensures (r as int < 0x80) == (c as int < 0x80 || c == '\U{0130}' || c == '\U{212A}')
  {
    if 'A' <= c <= 'Z' then (c as int + 32) as char
    else if c == '\U{0130}' then 'i'
    else if c == '\U{212A}' then 'k'
    else c
  }

  /** `strings.ToLower`, character by character. */
  function ToLower(s: string): (r: string)
    ensures |r| == |s|
    ensures forall k :: 0 <= k < |s| ==> r[k] == LowerChar(s[k])
  {
    seq(|s|, k requires 0 <= k < |s| => LowerChar(s[k]))
  }

  // ---------------------------------------------------------------------
  // Integers

  const MinInt64: int := -0x8000_0000_0000_0000
  const MaxInt64: int := 0x7FFF_FFFF_FFFF_FFFF

  datatype AtoiError = SyntaxError | RangeError

  predicate IsDigit(c: char) {
    '0' <= c <= '9'
  }

  /** The value of a string of decimal digits. */
  function DigitsValue(s: string): (r: nat)
    requires forall k :: 0 <= k < |s| ==> IsDigit(s[k])
  {
    if |s| == 0 then 0
    else
      assert IsDigit(s[|s| - 1]);
      DigitsValue(s[..|s| - 1]) * 10 + (s[|s| - 1] as int - '0' as int)
  }

  /** `strconv.Atoi`: an optional sign followed by at least one decimal
      digit, with a value that fits in 64 bits. */
  function Atoi(s: string): (r: Result<int, AtoiError>)
    ensures r.Ok? ==> MinInt64 <= r.value <= MaxInt64
    ensures |s| == 0 ==> r == Err(SyntaxError)
    ensures r.Ok? ==> exists k :: 0 <= k < |s| && IsDigit(s[k])
  {
    var neg := |s| > 0 && s[0] == '-';
    var digits := if |s| > 0 && (s[0] == '+' || s[0] == '-') then s[1..] else s;
    if |digits| == 0 || exists k :: 0 <= k < |digits| && !IsDigit(digits[k]) then Err(SyntaxError)
    else
      var v: int := if neg then -(DigitsValue(digits) as int) else DigitsValue(digits);
      assert IsDigit(s[|s| - 1]);
      if v < MinInt64 || v > MaxInt64 then Err(RangeError) else Ok(v)
  }

  /** The decimal digits of `n`, without sign or leading zeros. */
  function Decimal(n: nat): (r: string)
    ensures |r| >= 1
    ensures forall k :: 0 <= k < |r| ==> IsDigit(r[k])
    ensures r[0] == '0' ==> n == 0
  {
    var d := ('0' as int + n % 10) as char;
    if n < 10 then [d] else Decimal(n / 10) + [d]
  }

  lemma {:induction false} DigitsValueDecimal(n: nat)
    ensures DigitsValue(Decimal(n)) == n
  {
    if n >= 10 {
      DigitsValueDecimal(n / 10);
      var s := Decimal(n);
      assert s[..|s| - 1] == Decimal(n / 10);
    }
  }

  /** `Atoi` reads back every non-negative 64-bit value written in decimal. */
  lemma AtoiDecimal(n: nat)
    requires n <= MaxInt64
    ensures Atoi(Decimal(n)) == Ok(n)
  {
    DigitsValueDecimal(n);
  }

  // ---------------------------------------------------------------------
  // String order

  /** Go's `a < b` on strings. Go compares the UTF-8 bytes; UTF-8 keeps the
      order of code points, so comparing code points gives the same answer. */
  predicate Less(a: string, b: string) {
    if |a| == 0 then |b| > 0
    else if |b| == 0 then false
    else if a[0] != b[0] then a[0] < b[0]
    else Less(a[1..], b[1..])
  }

  /** Exactly one of `a < b`, `a == b`, `b < a` holds. */
  lemma {:induction false} LessTrichotomy(a: string, b: string)
    ensures Less(a, b) || a == b || Less(b, a)
    ensures !(Less(a, b) && Less(b, a))
    ensures !(Less(a, b) && a == b)
  {
    if |a| > 0 && |b| > 0 && a[0] == b[0] {
      LessTrichotomy(a[1..], b[1..]);
      if a[1..] == b[1..] {
        assert a == [a[0]] + a[1..] && b == [b[0]] + b[1..];
      }
    }
  }

  lemma {:induction false} LessTransitive(a: string, b: string, c: string)
    requires Less(a, b) && Less(b, c)
    ensures Less(a, c)
  {
    if |a| > 0 && a[0] == b[0] && b[0] == c[0] {
      LessTransitive(a[1..], b[1..], c[1..]);
    }
  }
}
