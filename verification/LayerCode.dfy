/**
 The layer code: a path of one to six digits in 1..=255 down the layer tree, packed into six eight-bit digits so that a
 layer and all its sub-layers are one interval of codes. Then the coordinate and score of a code.
 */
module LayerCode {
  import opened Wrappers
  import opened Text

  const LAYER_LEVELS: nat := 6

  // ------------------------------------------------------------------------------------------
  // Digits
  // ------------------------------------------------------------------------------------------

  /** 256^n. */
  function Span(n: nat): (p: nat)
    ensures p >= 1
  {
    if n == 0 then 1 else 256 * Span(n - 1)
  }

  /** The digits of a path as a number of `n` base-256 digits, missing ones zero. */
  function Value(path: seq<nat>, n: nat): nat
    decreases n
  {
    if n == 0 then 0
    else if path == [] then 0
    else path[0] * Span(n - 1) + Value(path[1..], n - 1)
  }

  predicate IsPath(path: seq<nat>) {
    |path| <= LAYER_LEVELS && forall i :: 0 <= i < |path| ==> 1 <= path[i] <= 255
  }

  ghost predicate Digits(path: seq<nat>, n: nat) {
    |path| <= n && forall i :: 0 <= i < |path| ==> 1 <= path[i] <= 255
  }

  function Digit(path: seq<nat>, level: nat): nat {
    if level < |path| then path[level] else 0
  }

  /** One more level shifts the number up one digit. */
  lemma {:induction false} OneMoreLevel(path: seq<nat>, n: nat)
    ensures Value(path, n + 1) == Value(path, n) * 256 + Digit(path, n)
    decreases n
  {
    if path != [] && n > 0 {
      OneMoreLevel(path[1..], n - 1);
      var d, tail := path[0], Value(path[1..], n - 1);
      assert Digit(path[1..], n - 1) == Digit(path, n);
      assert d * Span(n) == d * (256 * Span(n - 1)) == 256 * (d * Span(n - 1));
    }
  }

  /** A number of `n` digits is below 256^n. */
  lemma {:induction false} ValueBelow(path: seq<nat>, n: nat)
    requires forall i :: 0 <= i < |path| ==> path[i] <= 255
    ensures Value(path, n) < Span(n)
    decreases n
  {
    if path != [] && n > 0 {
      ValueBelow(path[1..], n - 1);
      Multiply(path[0], 255, Span(n - 1));
    }
  }

  lemma {:induction false} SpanRises(m: nat, n: nat)
    requires m <= n
    ensures Span(m) <= Span(n)
    decreases n
  {
    if m < n { SpanRises(m, n - 1); }
  }

  // ------------------------------------------------------------------------------------------
  // Packing, on 64-bit words
  // ------------------------------------------------------------------------------------------

  lemma Shifted(code: bv64)
    requires code < 0x0100_0000_0000_0000
    ensures (code << 8) as int == code as int * 256
  {
  }

  /** The low eight bits of a shifted word are free for a digit. */
  lemma OredMasked(code: bv64, digit: bv64)
    ensures ((code << 8) | (digit & 0xFF)) as int == (code << 8) as int + (digit & 0xFF) as int
  {
  }

  /** The same by other names, so that the words themselves need not be looked into again. */
  lemma OredNamed(code: bv64, digit: bv64, masked: bv64, next: bv64)
    requires masked == digit & 0xFF && next == (code << 8) | (digit & 0xFF)
    ensures next as int == (code << 8) as int + masked as int
  {
    OredMasked(code, digit);
  }

  lemma Ored(code: bv64, digit: bv64)
    requires digit < 256
    ensures ((code << 8) | digit) as int == (code << 8) as int + digit as int
  {
    DigitMasked(digit);
    OredNamed(code, digit, digit, (code << 8) | digit);
  }

  lemma DigitMasked(digit: bv64)
    requires digit < 256
    ensures digit & 0xFF == digit
  {
  }

  lemma DigitFits(digit: bv64)
    requires digit as int < 256
    ensures digit < 256
  {
  }

  lemma CodeWordFits(code: bv64)
    requires code as int < 0x1_0000_0000_0000
    ensures code < 0x0100_0000_0000_0000
  {
  }

  /** On the words of the loop, shifting and or-ing a digit in is multiplying and adding: no bit is lost. */
  lemma ShiftOr(code: bv64, digit: bv64)
    requires code as int < 0x1_0000_0000_0000 && digit as int < 256
    ensures ((code << 8) | digit) as int == code as int * 256 + digit as int
  {
    DigitFits(digit);
    CodeWordFits(code);
    Ored(code, digit);
    Shifted(code);
  }

  function Numbers(digits: seq<bv64>): (path: seq<nat>)
    ensures |path| == |digits|
  {
    seq(|digits|, i requires 0 <= i < |digits| => digits[i] as nat)
  }

  lemma PackOne(digits: seq<bv64>, level: nat, code: bv64, digit: bv64)
    requires IsPath(Numbers(digits)) && level < LAYER_LEVELS
    requires code as int == Value(Numbers(digits), level)
    requires digit as int == Digit(Numbers(digits), level)
    ensures ((code << 8) | digit) as int == Value(Numbers(digits), level + 1)
  {
    var path := Numbers(digits);
    ValueBelow(path, level);
    SpanRises(level, LAYER_LEVELS);
    TopSpan();
    OneMoreLevel(path, level);
    ShiftOr(code, digit);
  }

  lemma DigitIs(digits: seq<bv64>, level: nat)
    requires level < |digits|
    ensures digits[level] as int == Digit(Numbers(digits), level)
  {
    assert Numbers(digits)[level] == digits[level] as nat;
  }

  /** The digit of a level, zero below the path's end. */
  method DigitAt(digits: seq<bv64>, level: nat) returns (digit: bv64)
    ensures digit as int == Digit(Numbers(digits), level)
  {
    if level < |digits| {
      digit := digits[level];
      DigitIs(digits, level);
    } else {
      digit := 0;
      ZeroWord();
    }
  }

  lemma ZeroWord()
    ensures (0 as bv64) as int == 0
  {
  }

  /** The packing loop of `layer_code`. */
  method Pack(digits: seq<bv64>) returns (code: bv64)
    requires IsPath(Numbers(digits))
    ensures code as int == Value(Numbers(digits), LAYER_LEVELS) < 0x1_0000_0000_0000
  {
    code := 0;
    ZeroWord();
    for level := 0 to LAYER_LEVELS
      invariant code as int == Value(Numbers(digits), level)
    {
      var digit := DigitAt(digits, level);
      PackOne(digits, level, code, digit);
      code := (code << 8) | digit;
    }
    ValueBelow(Numbers(digits), LAYER_LEVELS);
    TopSpan();
  }

  /** A path leaves room for its whole subtree below the next sibling. */
  lemma {:induction false} Room(path: seq<nat>, n: nat)
    requires Digits(path, n)
    ensures Value(path, n) + Span(n - |path|) <= Span(n)
    decreases n
  {
    if path != [] {
      Room(path[1..], n - 1);
      assert n - |path| == (n - 1) - |path[1..]|;
      Multiply(path[0], 255, Span(n - 1));
    }
  }

  lemma Multiply(a: nat, b: nat, p: nat)
    requires a <= b
    ensures a * p <= b * p
  {
  }

  // ------------------------------------------------------------------------------------------
  // The tree
  // ------------------------------------------------------------------------------------------

  /** Preorder: a node before its children, siblings by digit. */
  predicate Before(a: seq<nat>, b: seq<nat>) {
    if b == [] then false
    else if a == [] then true
    else a[0] < b[0] || (a[0] == b[0] && Before(a[1..], b[1..]))
  }

  lemma {:induction false} BeforeIsTotal(a: seq<nat>, b: seq<nat>)
    ensures Before(a, b) || Before(b, a) || a == b
  {
    if a != [] && b != [] {
      BeforeIsTotal(a[1..], b[1..]);
      assert a == [a[0]] + a[1..] && b == [b[0]] + b[1..];
    }
  }

  /** A later node that is not below is past the whole subtree. */
  lemma {:induction false} PastTheSubtree(a: seq<nat>, b: seq<nat>, n: nat)
    requires Digits(a, n) && Digits(b, n) && Before(a, b)
    ensures if a <= b then Value(a, n) < Value(b, n) && Value(b, n) + Span(n - |b|) <= Value(a, n) + Span(n - |a|)
            else Value(a, n) + Span(n - |a|) <= Value(b, n)
    decreases n
  {
    if a == [] {
      Room(b, n);
      Multiply(1, b[0], Span(n - 1));
    } else {
      assert n - |a| == (n - 1) - |a[1..]| && n - |b| == (n - 1) - |b[1..]|;
      if a[0] < b[0] {
        Room(a[1..], n - 1);
        Multiply(a[0] + 1, b[0], Span(n - 1));
        assert (a[0] + 1) * Span(n - 1) == a[0] * Span(n - 1) + Span(n - 1);
      } else {
        PastTheSubtree(a[1..], b[1..], n - 1);
        assert a <= b <==> a[1..] <= b[1..] by {
          assert a == [a[0]] + a[1..] && b == [b[0]] + b[1..];
        }
      }
    }
  }

  function Code(path: seq<nat>): nat {
    Value(path, LAYER_LEVELS)
  }

  function Low(path: seq<nat>): nat {
    Code(path)
  }

  function High(path: seq<nat>): int
    requires IsPath(path)
  {
    Code(path) + Span(LAYER_LEVELS - |path|) - 1
  }

  lemma {:induction false} BeforeAndBelow(a: seq<nat>, b: seq<nat>)
    requires Before(b, a)
    ensures !(a <= b)
  {
    if a <= b {
      NotBeforeItsOwnPrefix(a, b);
    }
  }

  lemma {:induction false} NotBeforeItsOwnPrefix(a: seq<nat>, b: seq<nat>)
    requires a <= b
    ensures !Before(b, a)
  {
    if a != [] {
      NotBeforeItsOwnPrefix(a[1..], b[1..]);
    }
  }

  /** A layer's interval holds exactly the codes of the layer itself and of its sub-layers. */
  lemma IntervalIsTheSubtree(layer: seq<nat>, other: seq<nat>)
    requires IsPath(layer) && IsPath(other)
    ensures Low(layer) <= Code(other) <= High(layer) <==> layer <= other
  {
    BeforeIsTotal(layer, other);
    if Before(layer, other) {
      PastTheSubtree(layer, other, LAYER_LEVELS);
    } else if Before(other, layer) {
      PastTheSubtree(other, layer, LAYER_LEVELS);
      BeforeAndBelow(layer, other);
    }
  }

  /** Two layers' intervals nest, the deeper in the higher, exactly when one path extends the other; otherwise they are disjoint. */
  lemma IntervalsNestOrAreDisjoint(a: seq<nat>, b: seq<nat>)
    requires IsPath(a) && IsPath(b)
    ensures a <= b <==> Low(a) <= Low(b) && High(b) <= High(a)
    ensures !(a <= b) && !(b <= a) <==> High(a) < Low(b) || High(b) < Low(a)
  {
    IntervalIsTheSubtree(a, b);
    IntervalIsTheSubtree(b, a);
    BeforeIsTotal(a, b);
    if Before(a, b) {
      PastTheSubtree(a, b, LAYER_LEVELS);
    } else if Before(b, a) {
      PastTheSubtree(b, a, LAYER_LEVELS);
    }
  }

  /** Code order is the preorder of the tree, so codes are injective on paths. */
  lemma {:induction false} CodeOrderIsPreorder(a: seq<nat>, b: seq<nat>)
    requires IsPath(a) && IsPath(b)
    ensures Code(a) < Code(b) <==> Before(a, b)
    ensures Code(a) == Code(b) <==> a == b
  {
    BeforeIsTotal(a, b);
    if Before(a, b) {
      PastTheSubtree(a, b, LAYER_LEVELS);
    } else if Before(b, a) {
      PastTheSubtree(b, a, LAYER_LEVELS);
    }
  }

  // ------------------------------------------------------------------------------------------
  // Keys
  // ------------------------------------------------------------------------------------------

  const U64_LIMIT: nat := 0x1_0000_0000_0000_0000

  predicate IsDecimal(s: string) {
    s != "" && forall i :: 0 <= i < |s| ==> '0' <= s[i] <= '9'
  }

  function DecimalValue(s: string): nat {
    if s == "" then 0
    else DecimalValue(s[..|s| - 1]) * 10 + (if '0' <= s[|s| - 1] then s[|s| - 1] as nat - '0' as nat else 0)
  }

  /** `str::parse::<u64>`: an optional plus sign, decimal digits, and a value that fits. */
  function ParseU64(s: string): Option<nat> {
    var body := if |s| > 1 && s[0] == '+' then s[1..] else s;
    if IsDecimal(body) && DecimalValue(body) < U64_LIMIT then Some(DecimalValue(body)) else None
  }

  function ParseAll(segments: seq<string>): Option<seq<nat>> {
    if segments == [] then Some([])
    else match (ParseU64(segments[0]), ParseAll(segments[1..]))
         case (Some(d), Some(rest)) => Some([d] + rest)
         case _ => None
  }

  /** The path a shape key names: dotted digits, at most six of them, none zero or above 255. */
  function PathOf(key: string): (path: Option<seq<nat>>)
    ensures path.Some? ==> IsPath(path.value)
  {
    match ParseAll(Split(key, '.'))
    case Some(path) => if IsPath(path) then Some(path) else None
    case None => None
  }

  /** `layer_code`. */
  function LayerCodeOf(key: string): Result<nat> {
    match PathOf(key)
    case Some(path) => Ok(Code(path))
    case None => Err("layer key")
  }

  /** `layer_interval`, whose depth is the number of dotted segments. */
  function LayerIntervalOf(key: string): Result<(nat, int)> {
    match PathOf(key)
    case Some(path) => Ok((Code(path), Code(path) + Span(LAYER_LEVELS - |path|) - 1))
    case None => Err("layer key")
  }

  const DIGITS := "0123456789"

  /** A number in decimal, without leading zeros. */
  function Numeral(n: nat): (s: string)
    ensures s != ""
  {
    if n < 10 then [DIGITS[n]] else Numeral(n / 10) + [DIGITS[n % 10]]
  }

  function Zeros(k: nat): string {
    if k == 0 then "" else Zeros(k - 1) + "0"
  }

  lemma DigitReads(d: nat)
    requires d < 10
    ensures '0' <= DIGITS[d] <= '9' && DecimalValue([DIGITS[d]]) == d
  {
    assert DIGITS[d] as nat == '0' as nat + d;
    assert [DIGITS[d]][..0] == "";
  }

  lemma {:induction false} DecimalOneMore(s: string, c: char)
    ensures DecimalValue(s + [c]) == DecimalValue(s) * 10 + DecimalValue([c])
  {
    assert (s + [c])[..|s + [c]| - 1] == s;
    assert [c][..0] == "";
  }

  /** Reading a numeral gives the number back. */
  lemma {:induction false} NumeralReads(n: nat)
    ensures IsDecimal(Numeral(n)) && DecimalValue(Numeral(n)) == n
  {
    if n < 10 {
      DigitReads(n);
    } else {
      NumeralReads(n / 10);
      DigitReads(n % 10);
      DecimalOneMore(Numeral(n / 10), DIGITS[n % 10]);
    }
  }

  lemma {:induction false} LeadingZero(s: string)
    requires IsDecimal(s)
    ensures IsDecimal("0" + s) && DecimalValue("0" + s) == DecimalValue(s)
    decreases |s|
  {
    var front, last := s[..|s| - 1], s[|s| - 1];
    assert "0" + s == ("0" + front) + [last];
    if front != "" {
      LeadingZero(front);
    } else {
      assert "0" + front == "0";
      DigitReads(0);
    }
    DecimalOneMore("0" + front, last);
  }

  lemma {:induction false} ZerosRead(k: nat, s: string)
    requires IsDecimal(s)
    ensures IsDecimal(Zeros(k) + s) && DecimalValue(Zeros(k) + s) == DecimalValue(s)
  {
    if k > 0 {
      LeadingZero(s);
      ZerosRead(k - 1, "0" + s);
      assert Zeros(k) + s == Zeros(k - 1) + ("0" + s);
    } else {
      assert Zeros(0) + s == s;
    }
  }

  /** The value of a digit is its place among the digits. */
  lemma DigitOf(c: char)
    requires '0' <= c <= '9'
    ensures DecimalValue([c]) < 10 && DIGITS[DecimalValue([c])] == c
  {
    assert [c][..0] == "";
    assert DecimalValue([c]) == c as nat - '0' as nat;
  }

  predicate ReadsAs(s: string, n: nat, k: nat) {
    s == Zeros(k) + Numeral(n)
  }

  /** A decimal string is the numeral of its value after some zeros. */
  /** One more digit after zeros alone leaves one zero more; after a number it makes the next numeral. */
  lemma AppendDigit(front: string, m: nat, k: nat, d: nat)
    requires ReadsAs(front, m, k) && d < 10
    ensures ReadsAs(front + [DIGITS[d]], 10 * m + d, if m == 0 then k + 1 else k)
  {
    if m == 0 {
      assert Numeral(0) == "0" && Numeral(d) == [DIGITS[d]];
      assert front + [DIGITS[d]] == (Zeros(k) + "0") + Numeral(d);
    } else {
      assert (10 * m + d) / 10 == m && (10 * m + d) % 10 == d;
      assert Numeral(10 * m + d) == Numeral(m) + [DIGITS[d]];
      assert front + [DIGITS[d]] == Zeros(k) + (Numeral(m) + [DIGITS[d]]);
    }
  }

  lemma {:induction false} DecimalIsNumeral(s: string)
    requires IsDecimal(s)
    ensures exists k: nat :: ReadsAs(s, DecimalValue(s), k)
    decreases |s|
  {
    var front, last := s[..|s| - 1], s[|s| - 1];
    assert s == front + [last];
    DigitOf(last);
    DecimalOneMore(front, last);
    var d := DecimalValue([last]);
    if front == "" {
      assert ReadsAs(s, d, 0);
    } else {
      DecimalIsNumeral(front);
      var m := DecimalValue(front);
      var k: nat :| ReadsAs(front, m, k);
      AppendDigit(front, m, k, d);
      assert ReadsAs(s, 10 * m + d, if m == 0 then k + 1 else k);
    }
  }

  /** A number's numeral after some zeros, and before those a plus sign or none. */
  predicate Spells(s: string, n: nat, k: nat, plus: bool) {
    s == if plus then "+" + (Zeros(k) + Numeral(n)) else Zeros(k) + Numeral(n)
  }

  lemma SpellingReads(s: string, n: nat, k: nat, plus: bool)
    requires Spells(s, n, k, plus) && n < U64_LIMIT
    ensures ParseU64(s) == Some(n)
  {
    var t := Zeros(k) + Numeral(n);
    NumeralReads(n);
    ZerosRead(k, Numeral(n));
    assert t[0] != '+';
    if plus { assert s[1..] == t; }
  }

  lemma {:induction false} BodySpells(s: string, body: string, plus: bool)
    requires IsDecimal(body) && s == if plus then "+" + body else body
    ensures exists k: nat :: Spells(s, DecimalValue(body), k, plus)
  {
    DecimalIsNumeral(body);
    var n := DecimalValue(body);
    var k: nat :| ReadsAs(body, n, k);
    PlusSpells(body, n, k);
    assert Spells(s, n, k, plus);
  }

  lemma ReadingSpells(s: string)
    requires ParseU64(s).Some?
    ensures exists k: nat, plus :: Spells(s, ParseU64(s).value, k, plus)
  {
    var plus := |s| > 1 && s[0] == '+';
    var body := if plus then s[1..] else s;
    assert s == if plus then "+" + body else body;
    BodySpells(s, body, plus);
  }

  lemma PlusSpells(body: string, n: nat, k: nat)
    requires ReadsAs(body, n, k)
    ensures Spells(body, n, k, false) && Spells("+" + body, n, k, true)
  {
  }

  /** A segment reads as a number exactly when it is its numeral, after an optional plus sign and any zeros, and fits 64 bits. */
  lemma SegmentReads(s: string, n: nat)
    ensures ParseU64(s) == Some(n) <==> n < U64_LIMIT && exists k: nat, plus :: Spells(s, n, k, plus)
  {
    if ParseU64(s) == Some(n) { ReadingSpells(s); }
    if n < U64_LIMIT {
      if k: nat, plus :| Spells(s, n, k, plus) { SpellingReads(s, n, k, plus); }
    }
  }

  /** How a path is written. */
  function KeyOf(path: seq<nat>): string
    requires path != []
  {
    Join(Numerals(path), '.')
  }

  function Numerals(path: seq<nat>): (segments: seq<string>)
    ensures |segments| == |path|
  {
    seq(|path|, i requires 0 <= i < |path| => Numeral(path[i]))
  }

  lemma {:induction false} ParseAllIs(segments: seq<string>, path: seq<nat>)
    ensures ParseAll(segments) == Some(path) <==>
            |segments| == |path| && forall i :: 0 <= i < |path| ==> ParseU64(segments[i]) == Some(path[i])
  {
    if segments != [] && path != [] {
      ParseAllIs(segments[1..], path[1..]);
      assert path == [path[0]] + path[1..];
    }
  }

  /** A key names a path exactly when its dotted segments read as the path's digits, which are at most six and in 1..=255. */
  lemma {:induction false} KeyNames(key: string, path: seq<nat>)
    ensures PathOf(key) == Some(path) <==>
            && |Split(key, '.')| == |path| <= LAYER_LEVELS
            && forall i :: 0 <= i < |path| ==> ParseU64(Split(key, '.')[i]) == Some(path[i]) && 1 <= path[i] <= 255
  {
    ParseAllIs(Split(key, '.'), path);
  }

  lemma {:induction false} NumeralParses(d: nat)
    requires d < U64_LIMIT
    ensures '.' !in Numeral(d) && ParseU64(Numeral(d)) == Some(d)
  {
    NumeralReads(d);
    assert Spells(Numeral(d), d, 0, false);
    SpellingReads(Numeral(d), d, 0, false);
  }

  lemma KeySplits(path: seq<nat>)
    requires path != [] && forall i :: 0 <= i < |path| ==> path[i] < U64_LIMIT
    ensures Split(KeyOf(path), '.') == Numerals(path)
  {
    forall i | 0 <= i < |path| ensures '.' !in Numerals(path)[i] {
      NumeralParses(path[i]);
    }
    SplitUndoesJoin(Numerals(path), '.');
  }

  lemma WrittenPathIsNamed(path: seq<nat>)
    requires path != [] && IsPath(path)
    ensures PathOf(KeyOf(path)) == Some(path)
  {
    KeySplits(path);
    forall i | 0 <= i < |path| ensures ParseU64(Numerals(path)[i]) == Some(path[i]) {
      NumeralParses(path[i]);
    }
    KeyNames(KeyOf(path), path);
  }

  /** Every path is named by its written key, so the key's code is the path's. */
  lemma KeysNameTheirPaths(path: seq<nat>)
    requires path != [] && IsPath(path)
    ensures PathOf(KeyOf(path)) == Some(path) && LayerCodeOf(KeyOf(path)) == Ok(Code(path))
    ensures LayerIntervalOf(KeyOf(path)) == Ok((Low(path), High(path)))
  {
    WrittenPathIsNamed(path);
  }

  /** The interval a key answers with is the subtree of the path it names; the depth read off the text is the path's. */
  lemma {:induction false} KeyIntervalIsTheSubtree(layer: string, other: string)
    requires PathOf(layer).Some? && PathOf(other).Some?
    ensures var (lo, hi) := LayerIntervalOf(layer).value;
            && (lo <= LayerCodeOf(other).value <= hi <==> PathOf(layer).value <= PathOf(other).value)
            && |Split(layer, '.')| == |PathOf(layer).value|
  {
    IntervalIsTheSubtree(PathOf(layer).value, PathOf(other).value);
    ParsedLength(Split(layer, '.'));
  }

  lemma {:induction false} ParsedLength(segments: seq<string>)
    requires ParseAll(segments).Some?
    ensures |ParseAll(segments).value| == |segments|
  {
    if segments != [] { ParsedLength(segments[1..]); }
  }

  /** A key written the way people write it: no plus sign and no leading zero in any segment. */
  predicate Canonical(key: string) {
    forall i :: 0 <= i < |Split(key, '.')| ==> PlainNumber(Split(key, '.')[i])
  }

  predicate PlainNumber(s: string) {
    s != "" && s[0] != '+' && s[0] != '0'
  }

  /** Codes do not tell keys apart that spell the same path differently. */
  lemma SpellingsCollide()
    ensures LayerCodeOf("3") == LayerCodeOf("03") == LayerCodeOf("+3") == Ok(0x03_00_00_00_00_00)
  {
    assert DecimalValue("") == 0;
    assert "3"[..0] == "" && DecimalValue("3") == 3;
    assert "0"[..0] == "" && DecimalValue("0") == 0;
    assert "03"[..1] == "0" && DecimalValue("03") == 3;
    assert "+3"[1..] == "3";
    OneSegment("3", 3);
    OneSegment("03", 3);
    OneSegment("+3", 3);
  }

  lemma OneSegment(s: string, d: nat)
    requires '.' !in s && ParseU64(s) == Some(d) && 1 <= d <= 255
    ensures LayerCodeOf(s) == Ok(d * 0x100_0000_0000)
  {
    SplitOfPlain(s, '.');
    assert ParseAll([s][1..]) == Some([]);
    assert ParseAll([s]) == Some([d] + []);
    assert [d] + [] == [d];
    assert IsPath([d]);
    assert Value([d][1..], 5) == 0;
    TopSpan();
  }

  lemma TopSpan()
    ensures Span(5) == 0x100_0000_0000
  {
    assert Span(5) == 256 * (256 * (256 * (256 * 256)));
  }

  /** Two keys have one code exactly when they spell one path, and two canonical keys exactly when they are one key. */
  lemma KeysWithOneCode(a: string, b: string)
    requires PathOf(a).Some? && PathOf(b).Some?
    ensures LayerCodeOf(a) == LayerCodeOf(b) <==> PathOf(a) == PathOf(b)
    ensures Canonical(a) && Canonical(b) ==> (LayerCodeOf(a) == LayerCodeOf(b) <==> a == b)
  {
    CodeOrderIsPreorder(PathOf(a).value, PathOf(b).value);
    if Canonical(a) && Canonical(b) && LayerCodeOf(a) == LayerCodeOf(b) {
      OneSpelling(Split(a, '.'), Split(b, '.'));
      JoinUndoesSplit(a, '.');
      JoinUndoesSplit(b, '.');
    }
  }

  lemma {:induction false} OneSpelling(a: seq<string>, b: seq<string>)
    requires ParseAll(a).Some? && ParseAll(a) == ParseAll(b)
    requires forall i :: 0 <= i < |a| ==> PlainNumber(a[i])
    requires forall i :: 0 <= i < |b| ==> PlainNumber(b[i])
    ensures a == b
  {
    ParsedLength(a);
    ParsedLength(b);
    if a != [] {
      FirstParsed(a);
      FirstParsed(b);
      PlainNumbersDiffer(a[0], b[0]);
      OneSpelling(a[1..], b[1..]);
    }
  }

  lemma {:induction false} FirstParsed(segments: seq<string>)
    requires segments != [] && ParseAll(segments).Some?
    ensures ParseU64(segments[0]).Some? && ParseAll(segments[1..]).Some?
    ensures ParseAll(segments).value[0] == ParseU64(segments[0]).value
    ensures ParseAll(segments).value[1..] == ParseAll(segments[1..]).value
    ensures ParseAll(segments).value != []
  {
  }

  lemma {:induction false} PlainNumbersDiffer(a: string, b: string)
    requires IsDecimal(a) && IsDecimal(b) && a[0] != '0' && b[0] != '0' && DecimalValue(a) == DecimalValue(b)
    ensures a == b
    decreases |a|
  {
    var x, y := a[..|a| - 1], b[..|b| - 1];
    assert a == x + [a[|a| - 1]] && b == y + [b[|b| - 1]];
    if x != "" && y != "" {
      PlainNumbersDiffer(x, y);
    } else {
      if x != "" { PlainNumberIsPositive(x); }
      if y != "" { PlainNumberIsPositive(y); }
    }
  }

  lemma {:induction false} PlainNumberIsPositive(s: string)
    requires IsDecimal(s) && s[0] != '0'
    ensures DecimalValue(s) > 0
    decreases |s|
  {
    if |s| > 1 { PlainNumberIsPositive(s[..|s| - 1]); }
  }

  // ------------------------------------------------------------------------------------------
  // Coordinates and scores
  // ------------------------------------------------------------------------------------------

  /** Q64.64 raw units per index unit, and the raw value of 1.0. */
  const SCORE_UNIT: nat := 0x1_0000
  const ONE: nat := 0x1_0000_0000_0000_0000

  /** `layer_coordinate`: the raw of `code * 2^-48`. */
  function LayerCoordinate(code: nat): int { code * SCORE_UNIT }

  /** `index_score`: an arithmetic right shift, which floors. */
  function IndexScore(raw: int): int { raw / SCORE_UNIT }

  /** `top_layer`. */
  function TopLayer(code: nat): nat { code / 0x100_0000_0000 }

  /** The index agrees with the tree: a path's coordinate is inside the unit interval, scores as its code, and its top layer is its first digit. */
  lemma IndexAgreesWithTheTree(path: seq<nat>)
    requires IsPath(path) && path != []
    ensures IndexScore(LayerCoordinate(Code(path))) == Code(path) < 0x1_0000_0000_0000
    ensures LayerCoordinate(Code(path)) * 0x1_0000_0000_0000 == Code(path) * 0x1_0000_0000_0000_0000
    ensures 0 <= LayerCoordinate(Code(path)) < 0x1_0000_0000_0000_0000
    ensures TopLayer(Code(path)) == path[0]
  {
    CodeFits(path);
    Room(path[1..], LAYER_LEVELS - 1);
    TopSpan();
  }

  lemma CodeFits(path: seq<nat>)
    requires IsPath(path)
    ensures Code(path) < 0x1_0000_0000_0000
  {
    Room(path, LAYER_LEVELS);
    TopSpan();
  }

  function Clamp(raw: int): int { if raw < 0 then 0 else if raw > ONE then ONE else raw }

  /** The score range `Filters::range` asks for. */
  function ScoreRange(lo: int, hi: int): (int, int) { (IndexScore(Clamp(lo)), IndexScore(Clamp(hi))) }

  predicate InScoreRange(raw: int, lo: int, hi: int) {
    var (a, b) := ScoreRange(lo, hi);
    a <= IndexScore(raw) <= b
  }

  /** A score-range query misses no coordinate of the range, and admits none a whole index unit outside it. */
  lemma QueryIsTight(raw: int, lo: int, hi: int)
    requires 0 <= raw <= ONE
    ensures lo <= raw <= hi ==> InScoreRange(raw, lo, hi)
    ensures InScoreRange(raw, lo, hi) && 0 <= lo <= ONE && 0 <= hi <= ONE ==> lo - 0x1_0000 < raw < hi + 0x1_0000
    ensures 0 <= lo <= ONE && 0 <= hi <= ONE && lo % 0x1_0000 == 0 && hi % 0x1_0000 == 0xFFFF ==> (InScoreRange(raw, lo, hi) <==> lo <= raw <= hi)
  {
    FloorIsMonotone(raw, Clamp(lo));
    FloorIsMonotone(Clamp(lo), raw);
    FloorIsMonotone(raw, Clamp(hi));
    FloorIsMonotone(Clamp(hi), raw);
  }

  lemma FloorIsMonotone(a: int, b: int)
    ensures a <= b ==> IndexScore(a) <= IndexScore(b)
    ensures IndexScore(a) <= IndexScore(b) ==> a < b + SCORE_UNIT
  {
  }
}
