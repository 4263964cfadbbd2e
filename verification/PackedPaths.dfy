/** The packed representation of station paths: sixteen nibbles of a 64-bit word, and the bit mask of unused
    stations (src/search.cpp, `PathCatalog::encode_path`, `path_size`, `stations`, `lexically_less`,
    `take_lowest_station_index`). Words are naturals; shifts are powers of two. */
module PackedPaths {
  import opened Common
  import opened Sequences

  const WIDTH := 16
  const LIMIT := 15

  function Power(base: nat, n: nat): (r: nat)
    requires base >= 1
    ensures r >= 1
  {
    if n == 0 then 1 else Scale(base, Power(base, n - 1))
  }

  function Scale(a: nat, b: nat): (r: nat)
    requires a >= 1 && b >= 1
    ensures r >= b >= 1
  {
    assert (a - 1) * b >= 0;
    a * b
  }

  lemma PowerNext(base: nat, n: nat)
    requires base >= 1
    ensures Power(base, 0) == 1
    ensures Power(base, n + 1) == base * Power(base, n)
  {
  }

  // ----- words -----

  /** The codes as leading base-16 digits of a word of `width` digits. */
  function Pack(codes: seq<nat>, width: nat): nat {
    if width == 0 then 0
    else if codes == [] then 0
    else codes[0] * Power(16, width - 1) + Pack(codes[1..], width - 1)
  }

  ghost predicate Codes(codes: seq<nat>) {
    forall i | 0 <= i < |codes| :: 1 <= codes[i] <= LIMIT
  }

  function Nibble(word: nat, index: nat): nat
    requires index < WIDTH
  {
    word / Power(16, WIDTH - 1 - index) % 16
  }

  lemma {:induction false} PackBound(codes: seq<nat>, width: nat)
    requires Codes(codes)
    ensures Pack(codes, width) < Power(16, width)
  {
    if width > 0 && codes != [] {
      hide Power;
      PackBound(codes[1..], width - 1);
      PowerNext(16, width - 1);
      Digit(codes[0], Power(16, width - 1));
    }
  }

  lemma Digit(c: nat, p: nat)
    requires c <= LIMIT
    ensures c * p <= 15 * p
  {
    assert 0 <= (LIMIT - c) * p;
  }

  lemma {:induction false} PackAppend(codes: seq<nat>, c: nat, width: nat)
    requires |codes| < width
    ensures Pack(codes + [c], width) == Pack(codes, width) + c * Power(16, width - 1 - |codes|)
  {
    hide Power;
    if codes == [] {
      assert (codes + [c])[1..] == [];
      assert Pack([], width - 1) == 0;
    } else {
      assert (codes + [c])[1..] == codes[1..] + [c];
      PackAppend(codes[1..], c, width - 1);
    }
  }

  /** A shorter word is the longer one without its last digit. */
  lemma {:induction false} PackShift(codes: seq<nat>, width: nat)
    requires |codes| <= width
    ensures Pack(codes, width + 1) == 16 * Pack(codes, width)
  {
    if codes != [] {
      PackShift(codes[1..], width - 1);
      var c, p := codes[0], Power(16, width - 1);
      assert Power(16, width) == 16 * p;
      assert c * (16 * p) == 16 * (c * p);
    }
  }

  // ----- decoding -----

  lemma {:induction false} PowerSum(base: nat, a: nat, b: nat)
    requires base >= 1
    ensures Power(base, a + b) == Power(base, a) * Power(base, b)
  {
    hide Power;
    if a > 0 {
      PowerSum(base, a - 1, b);
      PowerNext(base, a - 1);
      PowerNext(base, a - 1 + b);
      Associative(base, Power(base, a - 1), Power(base, b));
    } else {
      PowerNext(base, b);
    }
  }

  lemma Associative(x: nat, y: nat, z: nat)
    ensures x * (y * z) == x * y * z
  {
  }

  lemma Stepwise(x: nat, q: nat, p: nat)
    ensures x < q ==> (x + 1) * p <= q * p
  {
    if x < q { assert (q - x - 1) * p >= 0; }
  }

  lemma Divided(q: nat, p: nat, r: nat)
    requires p >= 1 && r < p
    ensures (q * p + r) / p == q
  {
    var x := (q * p + r) / p;
    Stepwise(x, q, p);
    Stepwise(q, x, p);
  }

  lemma PackHead(codes: seq<nat>, width: nat)
    requires codes != [] && width > 0
    ensures Pack(codes, width) == codes[0] * Power(16, width - 1) + Pack(codes[1..], width - 1)
  {
  }

  predicate SplitAt(word: nat, high: nat, digit: nat, weight: nat, low: nat) {
    word == (16 * high + digit) * weight + low
  }

  predicate PackSplitsAt(codes: seq<nat>, width: nat, k: nat, high: nat)
    requires k < |codes| <= width
  {
    SplitAt(Pack(codes, width), high, codes[k], Power(16, width - 1 - k), Pack(codes[k + 1..], width - 1 - k))
  }

  /** Splitting a word at digit `k`: the digits before it weigh at least one digit more. */
  lemma {:induction false} PackSplit(codes: seq<nat>, width: nat, k: nat)
    requires k < |codes| <= width && Codes(codes)
    ensures exists high: nat :: PackSplitsAt(codes, width, k, high)
  {
    hide Pack, Power;
    var p := Power(16, width - 1 - k);
    PackHead(codes, width);
    if k == 0 {
      assert PackSplitsAt(codes, width, k, 0);
    } else {
      PackSplit(codes[1..], width - 1, k - 1);
      var rest := Pack(codes[k + 1..], width - 1 - k);
      assert codes[1..][k..] == codes[k + 1..] && codes[1..][k - 1] == codes[k];
      var high: nat :| PackSplitsAt(codes[1..], width - 1, k - 1, high);
      var q := Power(16, k - 1);
      PowerSum(16, k - 1, width - k);
      PowerNext(16, width - k - 1);
      SplitStep(codes[0], q, p, high, codes[k], rest);
      var more: nat := codes[0] * q + high;
      assert PackSplitsAt(codes, width, k, more);
    }
  }

  lemma SplitStep(c: nat, q: nat, p: nat, high: nat, d: nat, rest: nat)
    ensures c * (q * (16 * p)) + ((16 * high + d) * p + rest) == (16 * (c * q + high) + d) * p + rest
  {
    assert c * (q * (16 * p)) == 16 * (c * q) * p;
    assert (16 * (c * q + high) + d) * p == 16 * (c * q) * p + (16 * high + d) * p;
  }

  lemma {:induction false} PackedNibble(codes: seq<nat>, k: nat)
    requires k < |codes| <= WIDTH && Codes(codes)
    ensures Nibble(Pack(codes, WIDTH), k) == codes[k]
  {
    hide Pack, Power, SplitAt;
    PackSplit(codes, WIDTH, k);
    var p, rest := Power(16, WIDTH - 1 - k), Pack(codes[k + 1..], WIDTH - 1 - k);
    var high: nat :| PackSplitsAt(codes, WIDTH, k, high);
    PackBound(codes[k + 1..], WIDTH - 1 - k);
    DigitOf(Pack(codes, WIDTH), high, codes[k], p, rest);
  }

  lemma DigitOf(word: nat, high: nat, c: nat, p: nat, rest: nat)
    requires c < 16 && p >= 1 && rest < p && SplitAt(word, high, c, p, rest)
    ensures word / p % 16 == c
  {
    Divided(16 * high + c, p, rest);
  }

  // ----- size -----

  /** Trailing zero digits of a word of `width` digits. */
  function TrailingZeros(word: nat, width: nat): nat {
    if width == 0 || word % 16 != 0 then 0 else 1 + TrailingZeros(word / 16, width - 1)
  }

  lemma {:induction false} PackedZeros(codes: seq<nat>, width: nat)
    requires |codes| <= width && Codes(codes)
    ensures TrailingZeros(Pack(codes, width), width) == width - |codes|
    decreases width
  {
    hide Pack, Power;
    if |codes| == width {
      if width > 0 {
        var n := width - 1;
        PackAppend(codes[..n], codes[n], width);
        assert codes[..n] + [codes[n]] == codes;
        PowerNext(16, 0);
        PackShift(codes[..n], n);
        LastDigit(Pack(codes[..n], n), codes[n]);
      }
    } else {
      PackShift(codes, width - 1);
      PackedZeros(codes, width - 1);
    }
  }

  lemma LastDigit(high: nat, c: nat)
    requires 1 <= c < 16
    ensures (16 * high + c * 1) % 16 != 0
  {
  }

  // ----- order -----

  /** Unsigned comparison of words is the lexicographic order of the codes. */
  lemma {:induction false} PackOrder(a: seq<nat>, b: seq<nat>, width: nat)
    requires |a| <= width && |b| <= width && Codes(a) && Codes(b)
    ensures Pack(a, width) < Pack(b, width) <==> LexLess(a, b)
    decreases width
  {
    if b == [] {
    } else if a == [] {
      HeadPositive(b, width);
    } else {
      PackOrder(a[1..], b[1..], width - 1);
      PackBound(a[1..], width - 1);
      PackBound(b[1..], width - 1);
      HeadOrder(a[0], b[0], Power(16, width - 1), Pack(a[1..], width - 1), Pack(b[1..], width - 1));
    }
  }

  lemma {:induction false} HeadPositive(b: seq<nat>, width: nat)
    requires b != [] && |b| <= width && Codes(b)
    ensures Pack(b, width) > 0
  {
    var p := Power(16, width - 1);
    assert b[0] * p >= 1 * p;
  }

  lemma HeadOrder(x: nat, y: nat, p: nat, r: nat, s: nat)
    requires r < p && s < p
    ensures x * p + r < y * p + s <==> x < y || (x == y && r < s)
  {
    if x < y { assert (x + 1) * p <= y * p; }
    if y < x { assert (y + 1) * p <= x * p; }
  }

  // ----- station ids -----

  /** At most fifteen station ids in increasing order. */
  ghost predicate Alphabet(known: seq<int>) {
    |known| <= LIMIT && forall i, j | 0 <= i < j < |known| :: known[i] < known[j]
  }

  ghost predicate Known(known: seq<int>, path: seq<int>) {
    forall i | 0 <= i < |path| :: path[i] in known
  }

  ghost function CodeOf(known: seq<int>, id: int): (r: nat)
    requires id in known
    ensures 1 <= r <= |known| && known[r - 1] == id
  {
    var i :| 0 <= i < |known| && known[i] == id;
    i + 1
  }

  ghost function CodesOf(known: seq<int>, path: seq<int>): (r: seq<nat>)
    requires Known(known, path)
    ensures |r| == |path| && forall i | 0 <= i < |path| :: r[i] == CodeOf(known, path[i])
  {
    seq(|path|, i requires 0 <= i < |path| => CodeOf(known, path[i]))
  }

  lemma CodesFit(known: seq<int>, path: seq<int>)
    requires Alphabet(known) && Known(known, path)
    ensures Codes(CodesOf(known, path))
  {
  }

  lemma {:induction false} CodesOrder(known: seq<int>, a: seq<int>, b: seq<int>)
    requires Alphabet(known) && Known(known, a) && Known(known, b)
    ensures LexLess(CodesOf(known, a), CodesOf(known, b)) <==> LexLess(a, b)
    decreases |a|
  {
    if a != [] && b != [] {
      assert CodesOf(known, a)[1..] == CodesOf(known, a[1..]);
      assert CodesOf(known, b)[1..] == CodesOf(known, b[1..]);
      assert a[0] in known && b[0] in known;
      CodesOrder(known, a[1..], b[1..]);
    }
  }

  datatype Encoded = Word(word: nat) | TooLong | Unknown

  /** First position whose id is not below the wanted one. */
  method LowerBound(known: seq<int>, id: int) returns (r: nat)
    requires forall i, j | 0 <= i < j < |known| :: known[i] < known[j]
    ensures r <= |known| && (forall i | 0 <= i < r :: known[i] < id) && (forall i | r <= i < |known| :: id <= known[i])
  {
    var low, high := 0, |known|;
    while low < high
      invariant 0 <= low <= high <= |known|
      invariant (forall i | 0 <= i < low :: known[i] < id) && (forall i | high <= i < |known| :: id <= known[i])
    {
      var mid := (low + high) / 2;
      if known[mid] < id { low := mid + 1; } else { high := mid; }
    }
    r := low;
  }

  method EncodePath(known: seq<int>, path: seq<int>) returns (e: Encoded)
    requires Alphabet(known)
    ensures e.TooLong? <==> |path| > LIMIT
    ensures e.Unknown? <==> |path| <= LIMIT && !Known(known, path)
    ensures e.Word? ==> Known(known, path) && e.word == Pack(CodesOf(known, path), WIDTH) < Power(16, WIDTH)
  {
    hide Pack, Power;
    if |path| > LIMIT { return TooLong; }
    var word := 0;
    EmptyWord();
    assert CodesOf(known, path[..0]) == [];
    for i := 0 to |path|
      invariant Known(known, path[..i])
      invariant word == Pack(CodesOf(known, path[..i]), WIDTH)
    {
      var found := LowerBound(known, path[i]);
      if found == |known| || known[found] != path[i] {
        assert path[i] !in known;
        return Unknown;
      }
      assert path[..i + 1] == path[..i] + [path[i]];
      var code := found + 1;
      assert code == CodeOf(known, path[i]);
      assert CodesOf(known, path[..i + 1]) == CodesOf(known, path[..i]) + [code];
      PackAppend(CodesOf(known, path[..i]), code, WIDTH);
      word := word + code * Power(16, WIDTH - 1 - i);
    }
    assert path[..|path|] == path;
    CodesFit(known, path);
    PackBound(CodesOf(known, path), WIDTH);
    return Word(word);
  }

  lemma EmptyWord()
    ensures Pack([], WIDTH) == 0
  {
  }

  function PathSize(word: nat): int {
    WIDTH - TrailingZeros(word, WIDTH)
  }

  /** Decode a word nibble by nibble; the result is the encoded path. */
  method DecodePath(known: seq<int>, word: nat, ghost path: seq<int>) returns (decoded: seq<int>)
    requires Alphabet(known) && |path| <= LIMIT && Known(known, path)
    requires word == Pack(CodesOf(known, path), WIDTH)
    ensures decoded == path
  {
    hide Pack, Power, TrailingZeros;
    ghost var codes := CodesOf(known, path);
    CodesFit(known, path);
    PackedZeros(codes, WIDTH);
    decoded := [];
    var size := PathSize(word);
    for i := 0 to size
      invariant decoded == path[..i]
    {
      PackedNibble(codes, i);
      var code := Nibble(word, i);
      decoded := decoded + [known[code - 1]];
    }
  }

  /** Encoding recovers the size and orders words like the station sequences. */
  lemma {:induction false} WordsFaithful(known: seq<int>, a: seq<int>, b: seq<int>)
    requires Alphabet(known) && Known(known, a) && Known(known, b) && |a| <= LIMIT && |b| <= LIMIT
    ensures var x, y := Pack(CodesOf(known, a), WIDTH), Pack(CodesOf(known, b), WIDTH);
      && PathSize(x) == |a|
      && (x < y <==> LexLess(a, b))
      && (x == y <==> a == b)
  {
    hide Pack, TrailingZeros, LexLess;
    CodesFit(known, a);
    CodesFit(known, b);
    PackedZeros(CodesOf(known, a), WIDTH);
    PackOrder(CodesOf(known, a), CodesOf(known, b), WIDTH);
    PackOrder(CodesOf(known, b), CodesOf(known, a), WIDTH);
    CodesOrder(known, a, b);
    CodesOrder(known, b, a);
    LexTotal(a, b);
  }
}
