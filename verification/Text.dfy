/** The parts of Rust's standard library that the modelled code leans on: trimming, line splitting,
    string order, decimal printing and parsing, saturating subtraction. A Rust string is a `string`, one `char` per
    Unicode scalar value. */
module Text {

  datatype Option<+T> = None | Some(value: T)

  /** `saturating_sub` on unsigned integers. */
  function SaturatingSub(x: nat, y: nat): nat {
    if x < y then 0 else x - y
  }

  /** `str::ends_with`. */
  predicate EndsWith(s: string, end: string) {
    |end| <= |s| && s[|s| - |end|..] == end
  }

  /** The last `n` elements, or all of them. */
  function LastOf<T>(s: seq<T>, n: nat): seq<T> {
    if |s| <= n then s else s[|s| - n..]
  }

  // -------------------------------------------------------------------------
  // Trimming
  // -------------------------------------------------------------------------

  /** The Unicode White_Space property, which `str::trim` strips. */
  predicate IsSpace(c: char) {
    var n := c as int;
    || 0x09 <= n <= 0x0D || n == 0x20 || n == 0x85 || n == 0xA0 || n == 0x1680
    || 0x2000 <= n <= 0x200A || n == 0x2028 || n == 0x2029 || n == 0x202F || n == 0x205F || n == 0x3000
  }

  lemma {:induction false} SpacesAre(c: char)
    ensures IsSpace(c) <==>
      c in "\t\n\U{B}\U{C}\r \U{85}\U{A0}\U{1680}\U{2000}\U{2001}\U{2002}\U{2003}\U{2004}\U{2005}\U{2006}\U{2007}\U{2008}\U{2009}\U{200A}\U{2028}\U{2029}\U{202F}\U{205F}\U{3000}"
  {
  }

  function TrimStart(s: string): string {
    if s != [] && IsSpace(s[0]) then TrimStart(s[1..]) else s
  }

  function TrimEnd(s: string): string {
    if s != [] && IsSpace(s[|s| - 1]) then TrimEnd(s[..|s| - 1]) else s
  }

  /** `str::trim`. */
  function Trim(s: string): string {
    TrimEnd(TrimStart(s))
  }

  function StripPrefix(s: string, prefix: string): Option<string> {
    if prefix <= s then Some(s[|prefix|..]) else None
  }

  lemma {:induction false} TrimStartTail(s: string, c: char)
    requires IsSpace(c)
    ensures TrimStart(s + [c]) == if TrimStart(s) == [] then [] else TrimStart(s) + [c]
  {
    if s == [] {
      assert TrimStart(([c])[1..]) == [];
    } else {
      assert (s + [c])[1..] == s[1..] + [c];
      if IsSpace(s[0]) {
        TrimStartTail(s[1..], c);
      }
    }
  }

  /** A line keeps its trimmed form when the newline that ended it is put back. */
  lemma {:induction false} TrimNewline(s: string)
    ensures Trim(s + "\n") == Trim(s)
  {
    TrimStartTail(s, '\n');
    var t := TrimStart(s);
    if t != [] {
      assert (t + ['\n'])[..|t|] == t;
    }
  }

  lemma {:induction false} TrimEndKeeps(s: string)
    ensures s != [] && !IsSpace(s[0]) ==> TrimEnd(s) != [] && TrimEnd(s)[0] == s[0]
    ensures TrimEnd(s) != [] ==> !IsSpace(TrimEnd(s)[|TrimEnd(s)| - 1])
    ensures TrimEnd(s) <= s
  {
    if s != [] && IsSpace(s[|s| - 1]) {
      TrimEndKeeps(s[..|s| - 1]);
    }
  }

  lemma {:induction false} TrimStartIs(s: string) returns (i: nat)
    ensures i <= |s| && TrimStart(s) == s[i..] && forall k :: 0 <= k < i ==> IsSpace(s[k])
    ensures i < |s| ==> !IsSpace(s[i])
  {
    i := 0;
    if s != [] && IsSpace(s[0]) {
      var j := TrimStartIs(s[1..]);
      i := j + 1;
      assert forall k :: 1 <= k < i ==> s[k] == s[1..][k - 1];
    }
  }

  lemma {:induction false} TrimEndIs(s: string) returns (i: nat)
    ensures i <= |s| && TrimEnd(s) == s[..i] && forall k :: i <= k < |s| ==> IsSpace(s[k])
    ensures i > 0 ==> !IsSpace(s[i - 1])
  {
    i := |s|;
    if s != [] && IsSpace(s[|s| - 1]) {
      i := TrimEndIs(s[..|s| - 1]);
    }
  }

  /** Trimming takes off exactly the space on both sides. */
  lemma {:induction false} TrimIs(s: string) returns (i: nat, j: nat)
    ensures i <= j <= |s| && Trim(s) == s[i..j]
    ensures forall k :: 0 <= k < i || j <= k < |s| ==> IsSpace(s[k])
    ensures i < j ==> !IsSpace(s[i]) && !IsSpace(s[j - 1])
  {
    i := TrimStartIs(s);
    var t := s[i..];
    var n := TrimEndIs(t);
    j := i + n;
    assert s[i..j] == t[..n];
    forall k | j <= k < |s|
      ensures IsSpace(s[k])
    {
      assert s[k] == t[k - i];
    }
    if n > 0 {
      assert s[j - 1] == t[n - 1];
    }
  }

  lemma {:induction false} TrimFixed(s: string)
    requires s == [] || (!IsSpace(s[0]) && !IsSpace(s[|s| - 1]))
    ensures Trim(s) == s
  {
  }

  // -------------------------------------------------------------------------
  // Lines: the complete pieces before each separator, and the piece after the last one
  // -------------------------------------------------------------------------

  /** Index of the first `x`, or the length when there is none. */
  function Find<T(==)>(s: seq<T>, x: T): (k: nat)
    ensures k <= |s|
    ensures x !in s[..k]
    ensures k < |s| ==> s[k] == x
  {
    if s == [] || s[0] == x then 0
    else
      var k := 1 + Find(s[1..], x);
      assert s[..k] == [s[0]] + s[1..][..k - 1];
      k
  }

  function Lines<T(==)>(s: seq<T>, x: T): seq<seq<T>> {
    var k := Find(s, x);
    if k == |s| then [] else [s[..k]] + Lines(s[k + 1..], x)
  }

  function Tail<T(==)>(s: seq<T>, x: T): seq<T> {
    var k := Find(s, x);
    if k == |s| then s else Tail(s[k + 1..], x)
  }

  /** `str::split` on one separator. */
  function Split<T(==)>(s: seq<T>, x: T): seq<seq<T>> {
    Lines(s, x) + [Tail(s, x)]
  }

  function Join<T>(parts: seq<seq<T>>, x: T): seq<T> {
    if parts == [] then [] else if |parts| == 1 then parts[0] else parts[0] + [x] + Join(parts[1..], x)
  }

  lemma {:induction false} FindUnique<T>(s: seq<T>, x: T, k: nat)
    requires k <= |s| && x !in s[..k] && (k < |s| ==> s[k] == x)
    ensures Find(s, x) == k
  {
    var f := Find(s, x);
    assert forall i :: 0 <= i < k ==> s[i] in s[..k];
    assert forall i :: 0 <= i < f ==> s[i] in s[..f];
  }

  /** The next line of a buffer, if it is complete. */
  lemma {:induction false} NextLine<T>(s: seq<T>, x: T)
    ensures
      var k := Find(s, x);
      if k == |s| then Lines(s, x) == [] && Tail(s, x) == s
      else Lines(s, x) == [s[..k]] + Lines(s[k + 1..], x) && Tail(s, x) == Tail(s[k + 1..], x)
  {
  }

  /** Splitting can be resumed: the unfinished tail of `a` is all that later text depends on. */
  lemma {:induction false} LinesAppend<T>(a: seq<T>, b: seq<T>, x: T)
    ensures Lines(a + b, x) == Lines(a, x) + Lines(Tail(a, x) + b, x)
    ensures Tail(a + b, x) == Tail(Tail(a, x) + b, x)
    decreases |a|
  {
    hide Lines, Tail;
    var k := Find(a, x);
    NextLine(a, x);
    if k < |a| {
      assert (a + b)[..k] == a[..k];
      FindUnique(a + b, x, k);
      NextLine(a + b, x);
      assert (a + b)[k + 1..] == a[k + 1..] + b;
      LinesAppend(a[k + 1..], b, x);
    }
  }

  lemma {:induction false} TailClean<T>(s: seq<T>, x: T)
    ensures x !in Tail(s, x)
    ensures forall i :: 0 <= i < |Lines(s, x)| ==> x !in Lines(s, x)[i]
    ensures x !in s ==> Lines(s, x) == [] && Tail(s, x) == s
    decreases |s|
  {
    var k := Find(s, x);
    if k < |s| {
      TailClean(s[k + 1..], x);
    } else {
      assert s[..k] == s;
    }
  }

  lemma {:induction false} SplitHead<T>(p: seq<T>, rest: seq<T>, x: T)
    requires x !in p
    ensures Lines(p + [x] + rest, x) == [p] + Lines(rest, x)
    ensures Tail(p + [x] + rest, x) == Tail(rest, x)
  {
    var s := p + [x] + rest;
    assert s[..|p|] == p;
    FindUnique(s, x, |p|);
    assert s[|p| + 1..] == rest;
  }

  lemma {:induction false} JoinCons<T>(p: seq<T>, rest: seq<seq<T>>, x: T)
    requires rest != []
    ensures Join([p] + rest, x) == p + [x] + Join(rest, x)
  {
    assert ([p] + rest)[1..] == rest;
  }

  lemma {:induction false} JoinSplit<T>(s: seq<T>, x: T)
    ensures Join(Split(s, x), x) == s
    decreases |s|
  {
    hide Lines, Tail, Join;
    var k := Find(s, x);
    NextLine(s, x);
    if k < |s| {
      var rest := Split(s[k + 1..], x);
      JoinSplit(s[k + 1..], x);
      assert Split(s, x) == [s[..k]] + rest;
      JoinCons(s[..k], rest, x);
      assert s[..k] + [x] + s[k + 1..] == s;
    } else {
      JoinOne(s, x);
      assert [] + [s] == [s];
    }
  }

  lemma {:induction false} JoinOne<T>(part: seq<T>, x: T)
    ensures Join([part], x) == part
  {
  }

  lemma {:induction false} SplitJoin<T>(parts: seq<seq<T>>, x: T)
    requires parts != []
    requires forall i :: 0 <= i < |parts| ==> x !in parts[i]
    ensures Split(Join(parts, x), x) == parts
  {
    if |parts| == 1 {
      TailClean(parts[0], x);
    } else {
      var p, rest := parts[0], parts[1..];
      assert parts == [p] + rest;
      SplitJoin(rest, x);
      JoinCons(p, rest, x);
      SplitHead(p, Join(rest, x), x);
    }
  }

  lemma {:induction false} SplitConcat<T>(a: seq<T>, b: seq<T>, x: T)
    ensures Split(a + [x] + b, x) == Split(a, x) + Split(b, x)
  {
    hide Lines, Tail;
    var t := Tail(a, x);
    assert a + [x] + b == a + ([x] + b);
    LinesAppend(a, [x] + b, x);
    assert t + ([x] + b) == t + [x] + b;
    TailClean(a, x);
    SplitHead(t, b, x);
    assert Lines(a, x) + ([t] + Lines(b, x)) + [Tail(b, x)] == Lines(a, x) + [t] + (Lines(b, x) + [Tail(b, x)]);
  }

  /** The concatenation of a list of chunks. */
  function Concat<T>(chunks: seq<seq<T>>): seq<T> {
    if chunks == [] then [] else Concat(chunks[..|chunks| - 1]) + chunks[|chunks| - 1]
  }

  lemma {:induction false} ConcatSplit<T>(chunks: seq<seq<T>>, i: nat)
    requires i <= |chunks|
    ensures Concat(chunks) == Concat(chunks[..i]) + Concat(chunks[i..])
  {
    var n := |chunks|;
    if i < n {
      ConcatSplit(chunks[..n - 1], i);
      assert chunks[..n - 1][..i] == chunks[..i];
      assert chunks[..n - 1][i..] == chunks[i..][..n - i - 1];
      assert chunks[i..][n - i - 1] == chunks[n - 1];
      assert Concat(chunks[..i]) + Concat(chunks[i..][..n - i - 1]) + chunks[n - 1]
          == Concat(chunks[..i]) + (Concat(chunks[i..][..n - i - 1]) + chunks[n - 1]);
    } else {
      assert chunks[..i] == chunks && chunks[i..] == [];
    }
  }

  // -------------------------------------------------------------------------
  // String order
  // -------------------------------------------------------------------------

  /** Rust's `str` order: lexicographic by scalar value. */
  predicate LexLess(s: string, t: string) {
    t != [] && (s == [] || s[0] < t[0] || (s[0] == t[0] && LexLess(s[1..], t[1..])))
  }

  lemma {:induction false} LexPrefix(a: string, s: string, b: string, t: string)
    requires |a| == |b|
    ensures LexLess(a + s, b + t) <==> LexLess(a, b) || (a == b && LexLess(s, t))
  {
    if a == [] {
      assert a + s == s && b + t == t;
    } else {
      assert (a + s)[1..] == a[1..] + s && (b + t)[1..] == b[1..] + t;
      LexPrefix(a[1..], s, b[1..], t);
      assert a == [a[0]] + a[1..] && b == [b[0]] + b[1..];
    }
  }

  lemma {:induction false} LexIrreflexive(s: string)
    ensures !LexLess(s, s)
  {
    if s != [] {
      LexIrreflexive(s[1..]);
    }
  }

  lemma {:induction false} LexTransitive(a: string, b: string, c: string)
    requires LexLess(a, b) && LexLess(b, c)
    ensures LexLess(a, c)
  {
    if a != [] && a[0] == b[0] && b[0] == c[0] {
      LexTransitive(a[1..], b[1..], c[1..]);
    }
  }

  lemma {:induction false} LexAsymmetric(s: string, t: string)
    requires LexLess(s, t)
    ensures !LexLess(t, s)
  {
    if LexLess(t, s) {
      LexTransitive(s, t, s);
      LexIrreflexive(s);
    }
  }

  lemma {:induction false} LexNotAfter(a: string, b: string, c: string)
    requires !LexLess(b, a) && !LexLess(c, b)
    ensures !LexLess(c, a)
  {
    LexTotal(a, b);
    if LexLess(c, a) && LexLess(a, b) {
      LexTransitive(c, a, b);
    }
  }

  lemma {:induction false} LexTotal(a: string, b: string)
    ensures LexLess(a, b) || a == b || LexLess(b, a)
  {
    if a != [] && b != [] && a[0] == b[0] {
      LexTotal(a[1..], b[1..]);
      assert a == [a[0]] + a[1..] && b == [b[0]] + b[1..];
    }
  }

  // -------------------------------------------------------------------------
  // Decimal numbers
  // -------------------------------------------------------------------------

  function Digit(d: nat): (c: char)
    requires d < 10
  {
    (d + 48) as char
  }

  predicate IsDigit(c: char) {
    '0' <= c <= '9'
  }

  predicate AllDigits(s: string) {
    forall i :: 0 <= i < |s| ==> IsDigit(s[i])
  }

  /** `{:0w}`: decimal digits, zero-padded to at least `w` (and at least one). */
  function Pad(n: nat, w: nat): (s: string)
    ensures AllDigits(s) && |s| >= w && |s| >= 1
    decreases n, w
  {
    if n < 10 && w <= 1 then [Digit(n)]
    else Pad(n / 10, if w > 0 then w - 1 else 0) + [Digit(n % 10)]
  }

  /** The number that a run of digits denotes. */
  function Value(s: string): nat
    requires AllDigits(s)
  {
    if s == [] then 0 else 10 * Value(s[..|s| - 1]) + (s[|s| - 1] as int - 48)
  }

  function Pow10(w: nat): nat {
    if w == 0 then 1 else 10 * Pow10(w - 1)
  }

  lemma {:induction false} ValuePad(n: nat, w: nat)
    ensures Value(Pad(n, w)) == n
    decreases n, w
  {
    var s := Pad(n, w);
    if n < 10 && w <= 1 {
      assert s[..0] == [];
    } else {
      var v := if w > 0 then w - 1 else 0;
      ValuePad(n / 10, v);
      assert s[..|s| - 1] == Pad(n / 10, v);
    }
  }

  lemma {:induction false} ValueBound(s: string)
    requires AllDigits(s)
    ensures Value(s) < Pow10(|s|)
  {
    if s != [] {
      ValueBound(s[..|s| - 1]);
    }
  }

  lemma {:induction false} PadWidth(n: nat, w: nat)
    requires w >= 1 && n < Pow10(w)
    ensures |Pad(n, w)| == w
  {
    if !(n < 10 && w <= 1) {
      assert w > 1 && Pow10(w) == 10 * Pow10(w - 1);
      PadWidth(n / 10, w - 1);
    }
  }

  /** A number that overflows its field is at least as large as its printed width says. */
  lemma {:induction false} PadOverflow(n: nat, w: nat)
    requires |Pad(n, w)| > w && |Pad(n, w)| > 1
    ensures Pow10(|Pad(n, w)| - 1) <= n
    decreases n, w
  {
    var v := if w > 0 then w - 1 else 0;
    if |Pad(n / 10, v)| > 1 {
      PadOverflow(n / 10, v);
    } else {
      assert Pow10(1) == 10;
    }
  }

  lemma {:induction false} PadSplits(n: nat, w: nat)
    requires w >= 2
    ensures Pad(n, w) == Pad(n / 10, w - 1) + [Digit(n % 10)]
  {
  }

  lemma {:induction false} DigitOrder(a: nat, b: nat)
    requires a < 10 && b < 10
    ensures LexLess([Digit(a)], [Digit(b)]) <==> a < b
  {
  }

  /** On numbers of one printed width, string order is numeric order. */
  lemma {:induction false} PadOrder(a: nat, b: nat, w: nat)
    requires w >= 1 && a < Pow10(w) && b < Pow10(w)
    ensures LexLess(Pad(a, w), Pad(b, w)) <==> a < b
    ensures Pad(a, w) == Pad(b, w) <==> a == b
  {
    ValuePad(a, w);
    ValuePad(b, w);
    if w == 1 {
      DigitOrder(a, b);
    } else {
      hide LexLess, Value, Digit, AllDigits, Pad;
      assert Pow10(w) == 10 * Pow10(w - 1);
      PadSplits(a, w);
      PadSplits(b, w);
      PadOrder(a / 10, b / 10, w - 1);
      PadWidth(a / 10, w - 1);
      PadWidth(b / 10, w - 1);
      DigitOrder(a % 10, b % 10);
      LexPrefix(Pad(a / 10, w - 1), [Digit(a % 10)], Pad(b / 10, w - 1), [Digit(b % 10)]);
    }
  }

  /** `str::parse::<i64>` on the short fields used here (no overflow): an optional sign, then digits. */
  function ParseInt(s: string): Option<int> {
    var body := if s != [] && (s[0] == '+' || s[0] == '-') then s[1..] else s;
    if body == [] || !AllDigits(body) then None
    else
      var v: int := Value(body);
      Some(if s[0] == '-' then -v else v)
  }

  /** A sign may stand before the digits; nothing else parses. */
  lemma {:induction false} ParseSigned(s: string)
    ensures s != [] && AllDigits(s) ==>
      var v: int := Value(s);
      ParseInt(s) == Some(v) && ParseInt("+" + s) == Some(v) && ParseInt("-" + s) == Some(-v)
    ensures ParseInt(s).Some? ==>
      var body := if s != [] && (s[0] == '+' || s[0] == '-') then s[1..] else s;
      body != [] && AllDigits(body)
  {
    assert ("+" + s)[1..] == s && ("-" + s)[1..] == s;
  }

  lemma {:induction false} ParsePad(n: nat, w: nat)
    ensures ParseInt(Pad(n, w)) == Some(n)
  {
    ValuePad(n, w);
  }
}
