/**
 The text an extension's signature covers, and its three printers: the build's, the loader's and the extension manager's.
 SHA-256 is a parameter that yields 32 bytes; a directory is a map from the names in the manifest to file contents.
 */
module CanonicalText {
  import opened Wrappers
  import opened Text

  type Byte = bv8

  type Bytes = seq<Byte>

  type Digest = d: seq<Byte> | |d| == 32 witness seq(32, _ => 0)

  datatype Manifest = Manifest(name: string, handlers: seq<string>, luas: seq<string>)

  datatype Directory = Directory(handlers: map<string, Bytes>, luas: map<string, Bytes>)

  // ------------------------------------------------------------------------------------------
  // Hexadecimal, twice
  // ------------------------------------------------------------------------------------------

  const HEX := "0123456789abcdef"

  /** A byte as a number. */
  function Number(b: Byte): (n: nat)
    ensures n < 256
  {
    b as nat
  }

  function Hex(bytes: Bytes): (s: string)
    ensures |s| == 2 * |bytes|
  {
    seq(2 * |bytes|, i requires 0 <= i < 2 * |bytes| => if i % 2 == 0 then HEX[Number(bytes[i / 2]) / 16] else HEX[Number(bytes[i / 2]) % 16])
  }

  lemma HexOneMore(bytes: Bytes, n: nat)
    requires n < |bytes|
    ensures Hex(bytes[..n + 1]) == Hex(bytes[..n]) + [HEX[Number(bytes[n]) / 16], HEX[Number(bytes[n]) % 16]]
  {
  }

  /** The halves of a byte that the table is indexed with. */
  lemma Nibbles(b: Byte)
    ensures (b >> 4) as nat == Number(b) / 16
    ensures (b & 0x0F) as nat == Number(b) % 16
  {
  }

  /** A byte shifted and masked. */
  method Halves(b: Byte) returns (high: nat, low: nat)
    ensures high == Number(b) / 16 && low == Number(b) % 16
  {
    Nibbles(b);
    high, low := (b >> 4) as nat, (b & 0x0F) as nat;
  }

  /** `hex` of the build and `hex_lowercase` of the manager: two table look-ups a byte. */
  method HexByTable(bytes: Bytes) returns (out: string)
    ensures out == Hex(bytes)
  {
    out := "";
    for n := 0 to |bytes|
      invariant out == Hex(bytes[..n])
    {
      HexOneMore(bytes, n);
      var high, low := Halves(bytes[n]);
      out := out + [HEX[high]];
      out := out + [HEX[low]];
    }
    assert bytes[..|bytes|] == bytes;
  }

  /** A number in lower-case hexadecimal, without leading zeros. */
  function LowerHex(n: nat): string {
    if n < 16 then [HEX[n]] else LowerHex(n / 16) + [HEX[n % 16]]
  }

  function PadLeft(s: string, width: nat): string
    decreases width - |s|
  {
    if |s| >= width then s else PadLeft("0" + s, width)
  }

  /** `hex` of the loader: each byte formatted as a number of width two, padded with zeros. */
  method HexByFormat(bytes: Bytes) returns (out: string)
    ensures out == Hex(bytes)
  {
    out := "";
    for n := 0 to |bytes|
      invariant out == Hex(bytes[..n])
    {
      HexOneMore(bytes, n);
      FormattedByte(Number(bytes[n]));
      out := out + PadLeft(LowerHex(Number(bytes[n])), 2);
    }
    assert bytes[..|bytes|] == bytes;
  }

  lemma {:induction false} FormattedByte(b: nat)
    requires b < 256
    ensures PadLeft(LowerHex(b), 2) == [HEX[b / 16], HEX[b % 16]]
  {
    if b < 16 {
      assert PadLeft("0" + LowerHex(b), 2) == "0" + LowerHex(b);
    } else {
      assert LowerHex(b / 16) == [HEX[b / 16]];
    }
  }

  lemma HexIsInjective(a: Bytes, b: Bytes)
    requires Hex(a) == Hex(b)
    ensures a == b
  {
    forall i | 0 <= i < |a| ensures a[i] == b[i] {
      assert Hex(a)[2 * i] == Hex(b)[2 * i] && Hex(a)[2 * i + 1] == Hex(b)[2 * i + 1];
      HexDigitsDiffer(Number(a[i]) / 16, Number(b[i]) / 16);
      HexDigitsDiffer(Number(a[i]) % 16, Number(b[i]) % 16);
      SameNumberSameByte(a[i], b[i]);
    }
  }

  lemma SameNumberSameByte(a: Byte, b: Byte)
    requires Number(a) == Number(b)
    ensures a == b
  {
  }

  lemma HexDigitsDiffer(a: nat, b: nat)
    requires a < 16 && b < 16 && HEX[a] == HEX[b]
    ensures a == b
  {
  }

  // ------------------------------------------------------------------------------------------
  // Names
  // ------------------------------------------------------------------------------------------

  predicate IsIdentifierChar(c: char) {
    'a' <= c <= 'z' || '0' <= c <= '9' || c == '_'
  }

  predicate IsIdentifier(s: string) {
    && s != ""
    && ('a' <= s[0] <= 'z' || s[0] == '_')
    && forall i :: 0 <= i < |s| ==> IsIdentifierChar(s[i])
  }

  predicate EndsWith(s: string, suffix: string) {
    |suffix| <= |s| && s[|s| - |suffix|..] == suffix
  }

  predicate HasDoubleDot(s: string) {
    exists i :: 0 <= i < |s| - 1 && s[i] == '.' && s[i + 1] == '.'
  }

  /** `trim_end_matches`: every trailing ".rs" goes, not only the last. */
  function TrimRs(s: string): string
    decreases |s|
  {
    if EndsWith(s, ".rs") then TrimRs(s[..|s| - 3]) else s
  }

  predicate IsHandlerName(s: string) {
    && '/' !in s && '\\' !in s && !HasDoubleDot(s)
    && EndsWith(s, ".rs")
    && IsIdentifier(TrimRs(s))
  }

  /** Identifier characters and dots, no two dots together and none at the end. */
  predicate IsTidy(s: string) {
    && (forall i :: 0 <= i < |s| ==> s[i] == '.' || IsIdentifierChar(s[i]))
    && !HasDoubleDot(s)
    && (s != "" ==> s[|s| - 1] != '.')
  }

  lemma {:induction false} StemMakesTidy(s: string)
    requires IsIdentifier(TrimRs(s))
    ensures IsTidy(s)
    decreases |s|
  {
    if EndsWith(s, ".rs") {
      var t := s[..|s| - 3];
      StemMakesTidy(t);
      assert s == t + ".rs";
      forall i | 0 <= i < |s| - 1 && s[i] == '.' ensures s[i + 1] != '.' {
        if i < |t| - 1 { assert t[i] == '.'; }
      }
      forall i | 0 <= i < |s| ensures s[i] == '.' || IsIdentifierChar(s[i]) {
        if i < |t| { assert s[i] == t[i]; }
      }
    }
  }

  /** The separator and double-dot guards refuse nothing the other two conditions let through. */
  lemma {:induction false} GuardsAreImplied(s: string)
    ensures IsHandlerName(s) <==> EndsWith(s, ".rs") && IsIdentifier(TrimRs(s))
    ensures IsHandlerName(s) ==> IsTidy(s)
  {
    if IsIdentifier(TrimRs(s)) {
      StemMakesTidy(s);
    }
  }

  const STARTS := "abcdefghijklmnopqrstuvwxyz_"
  const CHARACTERS := "abcdefghijklmnopqrstuvwxyz_0123456789"

  lemma CharacterIs(c: char)
    ensures IsIdentifierChar(c) <==> c in CHARACTERS
    ensures ('a' <= c <= 'z' || c == '_') <==> c in STARTS
  {
    assert forall k :: 0 <= k < 26 ==> CHARACTERS[k] as nat == 97 + k && STARTS[k] as nat == 97 + k;
    assert forall k :: 27 <= k < 37 ==> CHARACTERS[k] as nat == 21 + k;
    assert CHARACTERS[26] == STARTS[26] == '_';
    if 'a' <= c <= 'z' { assert CHARACTERS[c as nat - 97] == c == STARTS[c as nat - 97]; }
    if '0' <= c <= '9' { assert CHARACTERS[c as nat - 21] == c; }
  }

  /** An identifier is a letter or underscore followed by letters, underscores and digits. */
  lemma IdentifiersAre(s: string)
    ensures IsIdentifier(s) <==> s != "" && s[0] in STARTS && forall i :: 0 <= i < |s| ==> s[i] in CHARACTERS
  {
    forall i | 0 <= i < |s|
      ensures IsIdentifierChar(s[i]) <==> s[i] in CHARACTERS
      ensures ('a' <= s[i] <= 'z' || s[i] == '_') <==> s[i] in STARTS
    {
      CharacterIs(s[i]);
    }
  }

  lemma DoubleDotIs(s: string)
    ensures HasDoubleDot(s) <==> exists a, b :: s == a + ".." + b
  {
    if HasDoubleDot(s) {
      var i :| 0 <= i < |s| - 1 && s[i] == '.' && s[i + 1] == '.';
      assert s == s[..i] + ".." + s[i + 2..];
    }
    if a, b :| s == a + ".." + b {
      assert s[|a|] == '.' && s[|a| + 1] == '.';
    }
  }

  /** A handler name is an identifier with ".rs" behind it at least once. */
  lemma HandlerNamesAre(s: string)
    ensures IsHandlerName(s) <==> exists stem: string, n: nat :: IsIdentifier(stem) && n >= 1 && IsExtension(s, stem, n)
  {
    GuardsAreImplied(s);
    if IsHandlerName(s) {
      StemAndSuffixes(s);
      assert IsExtension(s, TrimRs(s), SuffixCount(s));
    }
    if stem: string, n: nat :| IsIdentifier(stem) && n >= 1 && IsExtension(s, stem, n) {
      SuffixesTrim(stem, n);
      IdentifierIsBare(stem);
      assert s == stem + Suffixes(n - 1) + ".rs";
    }
  }

  lemma {:induction false} IdentifierIsBare(s: string)
    requires IsIdentifier(s)
    ensures TrimRs(s) == s
  {
    SuffixHasADot(s);
  }

  lemma SuffixHasADot(s: string)
    ensures EndsWith(s, ".rs") ==> '.' in s
  {
    if EndsWith(s, ".rs") {
      assert s[|s| - 3..][0] == '.' == s[|s| - 3];
    }
  }

  function Suffixes(n: nat): string {
    if n == 0 then "" else Suffixes(n - 1) + ".rs"
  }

  /** How many times a name ends in ".rs". */
  function SuffixCount(s: string): nat
    decreases |s|
  {
    if EndsWith(s, ".rs") then 1 + SuffixCount(s[..|s| - 3]) else 0
  }

  lemma {:induction false} StemAndSuffixes(s: string)
    ensures s == TrimRs(s) + Suffixes(SuffixCount(s))
    decreases |s|
  {
    if EndsWith(s, ".rs") {
      StemAndSuffixes(s[..|s| - 3]);
      assert s == s[..|s| - 3] + ".rs";
    }
  }

  lemma {:induction false} SuffixesAdd(m: nat, n: nat)
    ensures Suffixes(m + n) == Suffixes(m) + Suffixes(n)
  {
    if n > 0 {
      SuffixesAdd(m, n - 1);
    }
  }

  lemma {:induction false} SuffixesTrim(s: string, n: nat)
    ensures TrimRs(s + Suffixes(n)) == TrimRs(s)
  {
    if n == 0 {
      assert s + "" == s;
    } else {
      var t := s + Suffixes(n - 1);
      assert s + Suffixes(n) == t + ".rs";
      assert (t + ".rs")[..|t + ".rs"| - 3] == t;
      SuffixesTrim(s, n - 1);
    }
  }

  /** One name is the other followed by ".rs" any number of times. */
  ghost predicate Extends(a: string, b: string) {
    exists n: nat :: IsExtension(a, b, n)
  }

  predicate IsExtension(a: string, b: string, n: nat) {
    a == b + Suffixes(n)
  }

  lemma {:induction false} SameStemExtends(a: string, b: string)
    requires TrimRs(a) == TrimRs(b) && SuffixCount(a) >= SuffixCount(b)
    ensures Extends(a, b)
  {
    var more := SuffixCount(a) - SuffixCount(b);
    StemAndSuffixes(a);
    StemAndSuffixes(b);
    SuffixesAdd(SuffixCount(b), more);
    var stem, own, rest := TrimRs(b), Suffixes(SuffixCount(b)), Suffixes(more);
    assert a == stem + (own + rest) == (stem + own) + rest;
    assert IsExtension(a, b, more);
  }

  /** Staging names a handler's module by its stem: two names collide exactly when one is the other followed by ".rs" any number of times. */
  lemma {:induction false} SuffixesCollide(a: string, b: string)
    ensures TrimRs(a) == TrimRs(b) <==> Extends(a, b) || Extends(b, a)
  {
    if TrimRs(a) == TrimRs(b) {
      if SuffixCount(a) >= SuffixCount(b) { SameStemExtends(a, b); } else { SameStemExtends(b, a); }
    }
    if n: nat :| IsExtension(a, b, n) { SuffixesTrim(b, n); }
    if n: nat :| IsExtension(b, a, n) { SuffixesTrim(a, n); }
  }

  /** The validators accept such names: every extension of an accepted name is accepted. */
  lemma {:induction false} ExtensionsAreAccepted(s: string, n: nat)
    requires IsHandlerName(s)
    ensures IsHandlerName(s + Suffixes(n))
  {
    GuardsAreImplied(s);
    SuffixesTrim(s, n);
    GuardsAreImplied(s + Suffixes(n));
    if n == 0 {
      assert s + "" == s;
    } else {
      assert s + Suffixes(n) == (s + Suffixes(n - 1)) + ".rs";
    }
  }

  ghost predicate DistinctModules(handlers: seq<string>) {
    forall i, j :: 0 <= i < j < |handlers| ==> TrimRs(handlers[i]) != TrimRs(handlers[j])
  }

  /** A manifest's staged modules are distinct exactly when no handler extends another. */
  lemma ModulesAreDistinct(handlers: seq<string>)
    ensures DistinctModules(handlers) <==>
            forall i, j :: 0 <= i < |handlers| && 0 <= j < |handlers| && i != j ==> !Extends(handlers[i], handlers[j])
  {
    forall i, j | 0 <= i < |handlers| && 0 <= j < |handlers|
      ensures TrimRs(handlers[i]) == TrimRs(handlers[j]) <==> Extends(handlers[i], handlers[j]) || Extends(handlers[j], handlers[i])
    {
      SuffixesCollide(handlers[i], handlers[j]);
    }
  }

  // ------------------------------------------------------------------------------------------
  // Sorting
  // ------------------------------------------------------------------------------------------

  predicate LexLe(a: string, b: string) {
    a == "" || (b != "" && (a[0] < b[0] || (a[0] == b[0] && LexLe(a[1..], b[1..]))))
  }

  lemma {:induction false} LexIsTotal(a: string, b: string)
    ensures LexLe(a, b) || LexLe(b, a)
    ensures LexLe(a, b) && LexLe(b, a) ==> a == b
  {
    if a != "" && b != "" && a[0] == b[0] {
      LexIsTotal(a[1..], b[1..]);
      assert a == [a[0]] + a[1..] && b == [b[0]] + b[1..];
    }
  }

  lemma {:induction false} LexIsTransitive(a: string, b: string, c: string)
    requires LexLe(a, b) && LexLe(b, c)
    ensures LexLe(a, c)
  {
    if a != "" && a[0] == b[0] == c[0] {
      LexIsTransitive(a[1..], b[1..], c[1..]);
    }
  }

  /** The strings agree up to `i`, where the first is over or has the smaller character. */
  predicate FirstDifference(a: string, b: string, i: nat) {
    && i <= |a| && i <= |b| && a[..i] == b[..i]
    && (if i == |a| then true else i < |b| && a[i] < b[i])
  }

  /** The order is the one of the characters: a prefix comes first, and else the smaller character at the first difference. */
  lemma {:induction false} LexIsByCharacter(a: string, b: string)
    ensures LexLe(a, b) <==> exists i: nat :: FirstDifference(a, b, i)
  {
    forall i: nat | FirstDifference(a, b, i) && i > 0 ensures a[0] == b[0] {
      assert a[..i][0] == b[..i][0];
    }
    if a == "" {
      assert FirstDifference(a, b, 0);
    } else if b != "" && a[0] == b[0] {
      LexIsByCharacter(a[1..], b[1..]);
      assert a == [a[0]] + a[1..] && b == [b[0]] + b[1..];
      if LexLe(a[1..], b[1..]) {
        var i: nat :| FirstDifference(a[1..], b[1..], i);
        assert a[..i + 1] == [a[0]] + a[1..][..i] && b[..i + 1] == [b[0]] + b[1..][..i];
        assert FirstDifference(a, b, i + 1);
      }
      if i: nat :| FirstDifference(a, b, i) {
        assert i > 0;
        assert a[1..][..i - 1] == a[..i][1..] && b[1..][..i - 1] == b[..i][1..];
        assert FirstDifference(a[1..], b[1..], i - 1);
      }
    } else if b != "" && a[0] < b[0] {
      assert FirstDifference(a, b, 0);
    }
  }

  predicate IsSorted(s: seq<string>) {
    forall i, j :: 0 <= i < j < |s| ==> LexLe(s[i], s[j])
  }

  function Insert(x: string, s: seq<string>): seq<string> {
    if s == [] || LexLe(x, s[0]) then [x] + s else [s[0]] + Insert(x, s[1..])
  }

  function Sort(s: seq<string>): seq<string> {
    if s == [] then [] else Insert(s[0], Sort(s[1..]))
  }

  lemma {:induction false} InsertKeeps(x: string, s: seq<string>)
    ensures multiset(Insert(x, s)) == multiset{x} + multiset(s)
  {
    if s != [] {
      assert s == [s[0]] + s[1..];
      if !LexLe(x, s[0]) { InsertKeeps(x, s[1..]); }
    }
  }

  /** Before a sorted list, an element not above its head keeps it sorted. */
  lemma {:induction false} ConsSorts(x: string, s: seq<string>)
    requires IsSorted(s) && (s != [] ==> LexLe(x, s[0]))
    ensures IsSorted([x] + s)
  {
    forall j | 0 <= j < |s| ensures LexLe(x, s[j]) {
      if j > 0 { LexIsTransitive(x, s[0], s[j]); }
    }
  }

  lemma {:induction false} InsertSorts(x: string, s: seq<string>)
    requires IsSorted(s)
    ensures IsSorted(Insert(x, s)) && multiset(Insert(x, s)) == multiset{x} + multiset(s)
  {
    InsertKeeps(x, s);
    if s == [] || LexLe(x, s[0]) {
      ConsSorts(x, s);
    } else {
      LexIsTotal(x, s[0]);
      InsertSorts(x, s[1..]);
      HeadOfInsert(x, s[1..]);
      ConsSorts(s[0], Insert(x, s[1..]));
    }
  }

  /** The first element after an insertion was first before it, or is the new one. */
  lemma {:induction false} HeadOfInsert(x: string, s: seq<string>)
    ensures Insert(x, s) != [] && (Insert(x, s)[0] == x || (s != [] && Insert(x, s)[0] == s[0]))
  {
  }

  lemma {:induction false} SortSorts(s: seq<string>)
    ensures IsSorted(Sort(s)) && multiset(Sort(s)) == multiset(s)
  {
    if s != [] {
      SortSorts(s[1..]);
      InsertSorts(s[0], Sort(s[1..]));
      assert s == [s[0]] + s[1..];
    }
  }

  lemma {:induction false} HeadIsLeast(s: seq<string>, x: string)
    requires IsSorted(s) && x in multiset(s)
    ensures s != [] && LexLe(s[0], x)
  {
    var i :| 0 <= i < |s| && s[i] == x;
    LexIsTotal(x, x);
  }

  lemma MultisetOfTail(s: seq<string>)
    requires s != []
    ensures multiset(s[1..]) == multiset(s) - multiset{s[0]}
  {
    assert s == [s[0]] + s[1..];
  }

  lemma {:induction false} SortedIsUnique(a: seq<string>, b: seq<string>)
    requires IsSorted(a) && IsSorted(b) && multiset(a) == multiset(b)
    ensures a == b
  {
    if a == [] {
      assert |multiset(b)| == 0;
    } else {
      assert a[0] in multiset(b);
      HeadIsLeast(b, a[0]);
      assert b[0] in multiset(a);
      HeadIsLeast(a, b[0]);
      LexIsTotal(a[0], b[0]);
      MultisetOfTail(a);
      MultisetOfTail(b);
      SortedIsUnique(a[1..], b[1..]);
    }
  }

  lemma {:induction false} SortForgetsOrder(a: seq<string>, b: seq<string>)
    ensures multiset(a) == multiset(b) <==> Sort(a) == Sort(b)
  {
    SortSorts(a);
    SortSorts(b);
    if multiset(a) == multiset(b) {
      SortedIsUnique(Sort(a), Sort(b));
    }
  }

  // ------------------------------------------------------------------------------------------
  // The text
  // ------------------------------------------------------------------------------------------

  const HANDLER_TAG := "handler: "
  const LUA_TAG := "lua-library: "
  const NAME_TAG := "extension: "
  const YAML_TAG := "extension-yaml-sha256: "
  const VERSION_LINE := "format-version: 1"

  function Entry(tag: string, name: string, hash: Digest): string {
    tag + name + " " + Hex(hash)
  }

  predicate Readable(names: seq<string>, files: map<string, Bytes>) {
    forall i :: 0 <= i < |names| ==> names[i] in files
  }

  function Entries(tag: string, names: seq<string>, files: map<string, Bytes>, sha: Bytes -> Digest): (lines: seq<string>)
    requires Readable(names, files)
    ensures |lines| == |names|
  {
    seq(|names|, i requires 0 <= i < |names| => Entry(tag, names[i], sha(files[names[i]])))
  }

  function Header(name: string, yaml: Bytes, sha: Bytes -> Digest): seq<string> {
    [VERSION_LINE, NAME_TAG + name, YAML_TAG + Hex(sha(yaml))]
  }

  function Unlines(lines: seq<string>): string {
    if lines == [] then "" else Unlines(lines[..|lines| - 1]) + lines[|lines| - 1] + "\n"
  }

  lemma {:induction false} SortKeepsMembers(names: seq<string>, x: string)
    ensures x in Sort(names) <==> x in names
  {
    SortSorts(names);
    assert x in multiset(Sort(names)) <==> x in multiset(names);
  }

  /** Every file the manifest names can be read. */
  predicate AllReadable(m: Manifest, dir: Directory) {
    (forall name :: name in m.handlers ==> name in dir.handlers) && (forall name :: name in m.luas ==> name in dir.luas)
  }

  predicate AllValid(m: Manifest) {
    (forall name :: name in m.handlers ==> IsHandlerName(name)) && (forall name :: name in m.luas ==> IsIdentifier(name))
  }

  lemma SortKeeps(m: Manifest, dir: Directory)
    ensures AllReadable(m, dir) <==> Readable(Sort(m.handlers), dir.handlers) && Readable(Sort(m.luas), dir.luas)
    ensures AllValid(m) <==> AllHandlerNames(Sort(m.handlers)) && AllIdentifiers(Sort(m.luas))
  {
    forall name ensures name in Sort(m.handlers) <==> name in m.handlers { SortKeepsMembers(m.handlers, name); }
    forall name ensures name in Sort(m.luas) <==> name in m.luas { SortKeepsMembers(m.luas, name); }
    MembersByIndex(Sort(m.handlers), dir.handlers);
    MembersByIndex(Sort(m.luas), dir.luas);
  }

  lemma MembersByIndex(names: seq<string>, files: map<string, Bytes>)
    ensures Readable(names, files) <==> forall name :: name in names ==> name in files
    ensures AllHandlerNames(names) <==> forall name :: name in names ==> IsHandlerName(name)
    ensures AllIdentifiers(names) <==> forall name :: name in names ==> IsIdentifier(name)
  {
  }

  predicate AllHandlerNames(names: seq<string>) {
    forall i :: 0 <= i < |names| ==> IsHandlerName(names[i])
  }

  predicate AllIdentifiers(names: seq<string>) {
    forall i :: 0 <= i < |names| ==> IsIdentifier(names[i])
  }

  function LinesOf(m: Manifest, yaml: Bytes, dir: Directory, sha: Bytes -> Digest): seq<string>
    requires AllReadable(m, dir)
  {
    SortKeeps(m, dir);
    Header(m.name, yaml, sha)
    + Entries(HANDLER_TAG, Sort(m.handlers), dir.handlers, sha)
    + Entries(LUA_TAG, Sort(m.luas), dir.luas, sha)
  }

  /** The text all three printers owe the signature. */
  function TextOf(m: Manifest, yaml: Bytes, dir: Directory, sha: Bytes -> Digest): string
    requires AllReadable(m, dir)
  {
    Unlines(LinesOf(m, yaml, dir, sha))
  }

  /** Line by line, in the order of the sorted names. */
  lemma LinesAre(m: Manifest, yaml: Bytes, dir: Directory, sha: Bytes -> Digest)
    requires AllReadable(m, dir)
    ensures var handlers, luas, lines := Sort(m.handlers), Sort(m.luas), LinesOf(m, yaml, dir, sha);
            && |lines| == 3 + |handlers| + |luas|
            && lines[0] == "format-version: 1"
            && lines[1] == "extension: " + m.name
            && lines[2] == "extension-yaml-sha256: " + Hex(sha(yaml))
            && (forall i :: 0 <= i < |handlers| ==> handlers[i] in dir.handlers)
            && (forall i :: 0 <= i < |handlers| ==> lines[3 + i] == "handler: " + handlers[i] + " " + Hex(sha(dir.handlers[handlers[i]])))
            && (forall i :: 0 <= i < |luas| ==> luas[i] in dir.luas)
            && (forall i :: 0 <= i < |luas| ==> lines[3 + |handlers| + i] == "lua-library: " + luas[i] + " " + Hex(sha(dir.luas[luas[i]])))
  {
    SortKeeps(m, dir);
  }

  lemma {:induction false} UnlinesOneMore(lines: seq<string>, line: string)
    ensures Unlines(lines + [line]) == Unlines(lines) + line + "\n"
  {
    assert (lines + [line])[..|lines + [line]| - 1] == lines;
  }

  /** What a printer's loop has written when it reaches entry `n`. */
  ghost predicate Printed(out: string, above: seq<string>, tag: string, names: seq<string>, n: nat, files: map<string, Bytes>, sha: Bytes -> Digest)
    requires n <= |names|
  {
    Readable(names[..n], files) && out == Unlines(above + Entries(tag, names[..n], files, sha))
  }

  lemma PrintOne(out: string, above: seq<string>, tag: string, names: seq<string>, n: nat, files: map<string, Bytes>, sha: Bytes -> Digest)
    requires n < |names| && Printed(out, above, tag, names, n, files, sha) && names[n] in files
    ensures Printed(out + Entry(tag, names[n], sha(files[names[n]])) + "\n", above, tag, names, n + 1, files, sha)
  {
    assert Readable(names[..n + 1], files);
    assert Entries(tag, names[..n + 1], files, sha) == Entries(tag, names[..n], files, sha) + [Entry(tag, names[n], sha(files[names[n]]))];
    var before := above + Entries(tag, names[..n], files, sha);
    assert above + Entries(tag, names[..n + 1], files, sha) == before + [Entry(tag, names[n], sha(files[names[n]]))];
    UnlinesOneMore(before, Entry(tag, names[n], sha(files[names[n]])));
  }

  lemma {:induction false} PrintedNone(above: seq<string>, tag: string, names: seq<string>, files: map<string, Bytes>, sha: Bytes -> Digest)
    ensures Printed(Unlines(above), above, tag, names, 0, files, sha)
  {
    assert above + Entries(tag, names[..0], files, sha) == above;
  }

  lemma PrintedHeader(name: string, yaml: Bytes, sha: Bytes -> Digest)
    ensures "" + "format-version: 1\n" + ("extension: " + name + "\n") + ("extension-yaml-sha256: " + Hex(sha(yaml)) + "\n")
         == Unlines(Header(name, yaml, sha))
  {
    var one, two := [VERSION_LINE], [VERSION_LINE, NAME_TAG + name];
    assert two == one + [NAME_TAG + name] && Header(name, yaml, sha) == two + [YAML_TAG + Hex(sha(yaml))];
    UnlinesOneMore([], VERSION_LINE);
    assert [] + [VERSION_LINE] == one;
    UnlinesOneMore(one, NAME_TAG + name);
    UnlinesOneMore(two, YAML_TAG + Hex(sha(yaml)));
    assert VERSION_LINE + "\n" == "format-version: 1\n";
  }

  datatype HexStyle = Table | Format

  method HexOf(bytes: Bytes, style: HexStyle) returns (out: string)
    ensures out == Hex(bytes)
  {
    match style {
      case Table => out := HexByTable(bytes);
      case Format => out := HexByFormat(bytes);
    }
  }

  method PrintHeader(name: string, yaml: Bytes, sha: Bytes -> Digest, style: HexStyle) returns (out: string)
    ensures out == Unlines(Header(name, yaml, sha))
  {
    out := "";
    out := out + "format-version: 1\n";
    out := out + ("extension: " + name + "\n");
    var hex := HexOf(sha(yaml), style);
    out := out + ("extension-yaml-sha256: " + hex + "\n");
    PrintedHeader(name, yaml, sha);
  }

  /** One turn of a printer's loop: the entry's line, when its name passes and its file is there. */
  method PrintEntry(start: string, ghost above: seq<string>, tag: string, ghost names: seq<string>, ghost n: nat, name: string,
                    files: map<string, Bytes>, sha: Bytes -> Digest, check: string -> bool, style: HexStyle) returns (r: Result<string>)
    requires n < |names| && names[n] == name && Printed(start, above, tag, names, n, files, sha)
    ensures r.Ok? <==> check(name) && name in files
    ensures r.Ok? ==> Printed(r.value, above, tag, names, n + 1, files, sha)
  {
    if !check(name) { return Err("refused name"); }
    if name !in files { return Err("unreadable file"); }
    var hex := HexOf(sha(files[name]), style);
    PrintOne(start, above, tag, names, n, files, sha);
    return Ok(start + (tag + name + " " + hex + "\n"));
  }

  /** The loop every printer runs over the sorted handlers and again over the sorted libraries, with its own check and hexadecimal. */
  method PrintEntries(start: string, ghost above: seq<string>, tag: string, names: seq<string>, files: map<string, Bytes>,
                      sha: Bytes -> Digest, check: string -> bool, style: HexStyle) returns (r: Result<string>)
    requires start == Unlines(above)
    ensures r.Ok? <==> Readable(names, files) && forall i :: 0 <= i < |names| ==> check(names[i])
    ensures r.Ok? ==> r.value == Unlines(above + Entries(tag, names, files, sha))
  {
    var out := start;
    PrintedNone(above, tag, names, files, sha);
    for n := 0 to |names|
      invariant forall i :: 0 <= i < n ==> check(names[i])
      invariant Printed(out, above, tag, names, n, files, sha)
    {
      var entry := PrintEntry(out, above, tag, names, n, names[n], files, sha, check, style);
      if entry.Err? { return entry; }
      out := entry.value;
    }
    assert names[..|names|] == names;
    return Ok(out);
  }

  /** `build_canonical_hashes` of the build: names validated, hexadecimal from a table. */
  method PrintAtBuild(m: Manifest, yaml: Bytes, dir: Directory, sha: Bytes -> Digest) returns (r: Result<string>)
    ensures r.Ok? <==> AllValid(m) && AllReadable(m, dir)
    ensures r.Ok? ==> r.value == TextOf(m, yaml, dir, sha)
  {
    SortKeeps(m, dir);
    var out := PrintHeader(m.name, yaml, sha, Table);
    ghost var above := Header(m.name, yaml, sha);
    var handlers := PrintEntries(out, above, HANDLER_TAG, Sort(m.handlers), dir.handlers, sha, IsHandlerName, Table);
    if handlers.Err? { return handlers; }
    above := above + Entries(HANDLER_TAG, Sort(m.handlers), dir.handlers, sha);
    r := PrintEntries(handlers.value, above, LUA_TAG, Sort(m.luas), dir.luas, sha, IsIdentifier, Table);
  }

  /** The loader's copy: names validated, hexadecimal from formatting. */
  method PrintAtLoad(m: Manifest, yaml: Bytes, dir: Directory, sha: Bytes -> Digest) returns (r: Result<string>)
    ensures r.Ok? <==> AllValid(m) && AllReadable(m, dir)
    ensures r.Ok? ==> r.value == TextOf(m, yaml, dir, sha)
  {
    SortKeeps(m, dir);
    var out := PrintHeader(m.name, yaml, sha, Format);
    ghost var above := Header(m.name, yaml, sha);
    var handlers := PrintEntries(out, above, HANDLER_TAG, Sort(m.handlers), dir.handlers, sha, IsHandlerName, Format);
    if handlers.Err? { return handlers; }
    above := above + Entries(HANDLER_TAG, Sort(m.handlers), dir.handlers, sha);
    r := PrintEntries(handlers.value, above, LUA_TAG, Sort(m.luas), dir.luas, sha, IsIdentifier, Format);
  }

  /** The manager's copy: no name is validated, so it prints for every readable manifest. */
  method PrintInManager(m: Manifest, yaml: Bytes, dir: Directory, sha: Bytes -> Digest) returns (r: Result<string>)
    ensures r.Ok? <==> AllReadable(m, dir)
    ensures r.Ok? ==> r.value == TextOf(m, yaml, dir, sha)
  {
    SortKeeps(m, dir);
    var out := PrintHeader(m.name, yaml, sha, Table);
    ghost var above := Header(m.name, yaml, sha);
    var handlers := PrintEntries(out, above, HANDLER_TAG, Sort(m.handlers), dir.handlers, sha, _ => true, Table);
    if handlers.Err? { return handlers; }
    above := above + Entries(HANDLER_TAG, Sort(m.handlers), dir.handlers, sha);
    r := PrintEntries(handlers.value, above, LUA_TAG, Sort(m.luas), dir.luas, sha, _ => true, Table);
  }

  // ------------------------------------------------------------------------------------------
  // Reading the text back
  // ------------------------------------------------------------------------------------------

  /** What a text covers: names and the hexadecimal of their hashes. */
  datatype Covered = Covered(name: string, yamlHash: string, handlers: seq<(string, string)>, luas: seq<(string, string)>)

  function ParseEntry(tag: string, line: string): Option<(string, string)> {
    if !(tag <= line) then None
    else
      var parts := Split(line[|tag|..], ' ');
      if |parts| == 2 then Some((parts[0], parts[1])) else None
  }

  /** The longest run of entries with this tag, and the lines after it. */
  function TakeEntries(tag: string, lines: seq<string>): (seq<(string, string)>, seq<string>) {
    if lines == [] then ([], [])
    else
      match ParseEntry(tag, lines[0])
      case None => ([], lines)
      case Some(entry) =>
        var (entries, rest) := TakeEntries(tag, lines[1..]);
        ([entry] + entries, rest)
  }

  function ParseLines(lines: seq<string>): Option<Covered> {
    if |lines| < 4 || lines[0] != VERSION_LINE || !(NAME_TAG <= lines[1]) || !(YAML_TAG <= lines[2]) then None
    else
      var (handlers, below) := TakeEntries(HANDLER_TAG, lines[3..]);
      var (luas, rest) := TakeEntries(LUA_TAG, below);
      if rest != [""] then None
      else Some(Covered(lines[1][|NAME_TAG|..], lines[2][|YAML_TAG|..], handlers, luas))
  }

  function Parse(text: string): Option<Covered> {
    ParseLines(Split(text, '\n'))
  }

  function Pairs(names: seq<string>, files: map<string, Bytes>, sha: Bytes -> Digest): seq<(string, string)>
    requires Readable(names, files)
  {
    seq(|names|, i requires 0 <= i < |names| => (names[i], Hex(sha(files[names[i]]))))
  }

  function CoveredBy(m: Manifest, yaml: Bytes, dir: Directory, sha: Bytes -> Digest): Covered
    requires AllReadable(m, dir)
  {
    SortKeeps(m, dir);
    Covered(m.name, Hex(sha(yaml)), Pairs(Sort(m.handlers), dir.handlers, sha), Pairs(Sort(m.luas), dir.luas, sha))
  }

  lemma {:induction false} SplitUndoesUnlines(lines: seq<string>)
    requires forall i :: 0 <= i < |lines| ==> '\n' !in lines[i]
    ensures Split(Unlines(lines), '\n') == lines + [""]
    ensures lines != [] ==> Split(Unlines(lines[..|lines| - 1]) + lines[|lines| - 1], '\n') == lines
  {
    if lines != [] {
      var front, last := lines[..|lines| - 1], lines[|lines| - 1];
      SplitUndoesUnlines(front);
      SplitOfPlain(last, '\n');
      if front == [] {
        assert Unlines(front) + last == last;
      } else {
        var before := Unlines(front[..|front| - 1]) + front[|front| - 1];
        assert Unlines(front) == before + ['\n'];
        SplitOfJoined(before, last, '\n');
        assert front + [last] == lines;
      }
      assert Unlines(lines) == Unlines(front) + last + ['\n'] + "";
      SplitOfJoined(Unlines(front) + last, "", '\n');
    }
  }

  lemma EntryParses(tag: string, name: string, hash: Digest)
    requires ' ' !in name
    ensures ParseEntry(tag, Entry(tag, name, hash)) == Some((name, Hex(hash)))
  {
    var line := Entry(tag, name, hash);
    assert line[|tag|..] == name + [' '] + Hex(hash);
    SplitOfJoined(name, Hex(hash), ' ');
    SplitOfPlain(name, ' ');
    HexIsPlain(hash);
    SplitOfPlain(Hex(hash), ' ');
  }

  lemma HexIsPlain(bytes: Bytes)
    ensures ' ' !in Hex(bytes) && '\n' !in Hex(bytes)
  {
    assert ' ' !in HEX && '\n' !in HEX;
  }

  lemma {:induction false} EntriesParse(tag: string, names: seq<string>, files: map<string, Bytes>, sha: Bytes -> Digest, rest: seq<string>)
    requires Readable(names, files) && forall i :: 0 <= i < |names| ==> ' ' !in names[i]
    requires rest != [] && ParseEntry(tag, rest[0]).None?
    ensures TakeEntries(tag, Entries(tag, names, files, sha) + rest) == (Pairs(names, files, sha), rest)
  {
    var lines := Entries(tag, names, files, sha) + rest;
    if names == [] {
      assert lines == rest && Pairs(names, files, sha) == [];
    } else {
      EntriesParse(tag, names[1..], files, sha, rest);
      assert lines[1..] == Entries(tag, names[1..], files, sha) + rest;
      EntryParses(tag, names[0], sha(files[names[0]]));
      assert Pairs(names, files, sha) == [(names[0], Hex(sha(files[names[0]])))] + Pairs(names[1..], files, sha);
    }
  }

  /** No separator of the text occurs in a validated name. */
  lemma ValidNamesArePlain(name: string)
    requires IsHandlerName(name) || IsIdentifier(name)
    ensures ' ' !in name && '\n' !in name
  {
    if IsHandlerName(name) {
      GuardsAreImplied(name);
    }
  }

  lemma EntriesArePlain(tag: string, names: seq<string>, files: map<string, Bytes>, sha: Bytes -> Digest)
    requires Readable(names, files) && '\n' !in tag && forall i :: 0 <= i < |names| ==> '\n' !in names[i]
    ensures forall i :: 0 <= i < |names| ==> '\n' !in Entries(tag, names, files, sha)[i]
  {
    forall i | 0 <= i < |names| ensures '\n' !in Entries(tag, names, files, sha)[i] {
      HexIsPlain(sha(files[names[i]]));
    }
  }

  lemma HeaderIsPlain(name: string, yaml: Bytes, sha: Bytes -> Digest)
    requires '\n' !in name
    ensures forall i :: 0 <= i < 3 ==> '\n' !in Header(name, yaml, sha)[i]
  {
    HexIsPlain(sha(yaml));
    assert '\n' !in VERSION_LINE && '\n' !in NAME_TAG && '\n' !in YAML_TAG;
  }

  lemma HeaderReads(name: string, yaml: Bytes, sha: Bytes -> Digest)
    ensures NAME_TAG <= NAME_TAG + name && (NAME_TAG + name)[|NAME_TAG|..] == name
    ensures YAML_TAG <= YAML_TAG + Hex(sha(yaml)) && (YAML_TAG + Hex(sha(yaml)))[|YAML_TAG|..] == Hex(sha(yaml))
  {
  }

  lemma LinesArePlain(m: Manifest, yaml: Bytes, dir: Directory, sha: Bytes -> Digest)
    requires Validated(m) && AllReadable(m, dir)
    ensures forall i :: 0 <= i < |LinesOf(m, yaml, dir, sha)| ==> '\n' !in LinesOf(m, yaml, dir, sha)[i]
  {
    SortKeeps(m, dir);
    var handlers, luas := Sort(m.handlers), Sort(m.luas);
    forall i | 0 <= i < |handlers| ensures '\n' !in handlers[i] { ValidNamesArePlain(handlers[i]); }
    forall i | 0 <= i < |luas| ensures '\n' !in luas[i] { ValidNamesArePlain(luas[i]); }
    ValidNamesArePlain(m.name);
    HeaderIsPlain(m.name, yaml, sha);
    EntriesArePlain(HANDLER_TAG, handlers, dir.handlers, sha);
    EntriesArePlain(LUA_TAG, luas, dir.luas, sha);
  }

  /** A manifest whose name, handlers and libraries all pass the validators. */
  predicate Validated(m: Manifest) {
    IsIdentifier(m.name) && AllValid(m)
  }

  /** The lines below the header, taken apart. */
  lemma BodyParses(handlers: seq<string>, luas: seq<string>, dir: Directory, sha: Bytes -> Digest)
    requires Readable(handlers, dir.handlers) && Readable(luas, dir.luas)
    requires (forall i :: 0 <= i < |handlers| ==> ' ' !in handlers[i]) && (forall i :: 0 <= i < |luas| ==> ' ' !in luas[i])
    ensures var below := Entries(LUA_TAG, luas, dir.luas, sha) + [""];
            && TakeEntries(HANDLER_TAG, Entries(HANDLER_TAG, handlers, dir.handlers, sha) + below) == (Pairs(handlers, dir.handlers, sha), below)
            && TakeEntries(LUA_TAG, below) == (Pairs(luas, dir.luas, sha), [""])
  {
    var below := Entries(LUA_TAG, luas, dir.luas, sha) + [""];
    OtherTag(below[0]);
    EntriesParse(HANDLER_TAG, handlers, dir.handlers, sha, below);
    EntriesParse(LUA_TAG, luas, dir.luas, sha, [""]);
  }

  lemma OtherTag(line: string)
    requires line == "" || line[0] == 'l'
    ensures ParseEntry(HANDLER_TAG, line).None?
  {
  }

  lemma LinesParse(name: string, handlers: seq<string>, luas: seq<string>, yaml: Bytes, dir: Directory, sha: Bytes -> Digest)
    requires Readable(handlers, dir.handlers) && Readable(luas, dir.luas)
    requires (forall i :: 0 <= i < |handlers| ==> ' ' !in handlers[i]) && (forall i :: 0 <= i < |luas| ==> ' ' !in luas[i])
    ensures var lines := Header(name, yaml, sha) + Entries(HANDLER_TAG, handlers, dir.handlers, sha) + Entries(LUA_TAG, luas, dir.luas, sha) + [""];
            ParseLines(lines) == Some(Covered(name, Hex(sha(yaml)), Pairs(handlers, dir.handlers, sha), Pairs(luas, dir.luas, sha)))
  {
    var header := Header(name, yaml, sha);
    var entries, below := Entries(HANDLER_TAG, handlers, dir.handlers, sha), Entries(LUA_TAG, luas, dir.luas, sha) + [""];
    var lines := header + entries + Entries(LUA_TAG, luas, dir.luas, sha) + [""];
    assert lines[3..] == entries + below;
    assert lines[0] == header[0] && lines[1] == header[1] && lines[2] == header[2];
    BodyParses(handlers, luas, dir, sha);
    HeaderReads(name, yaml, sha);
  }

  /** The text of a validated manifest reads back as exactly what it covers. */
  lemma TextIsDecodable(m: Manifest, yaml: Bytes, dir: Directory, sha: Bytes -> Digest)
    requires Validated(m) && AllReadable(m, dir)
    ensures Parse(TextOf(m, yaml, dir, sha)) == Some(CoveredBy(m, yaml, dir, sha))
  {
    SortKeeps(m, dir);
    var handlers, luas := Sort(m.handlers), Sort(m.luas);
    forall i | 0 <= i < |handlers| ensures ' ' !in handlers[i] { ValidNamesArePlain(handlers[i]); }
    forall i | 0 <= i < |luas| ensures ' ' !in luas[i] { ValidNamesArePlain(luas[i]); }
    LinesArePlain(m, yaml, dir, sha);
    SplitUndoesUnlines(LinesOf(m, yaml, dir, sha));
    LinesParse(m.name, handlers, luas, yaml, dir, sha);
  }

  /** Two directories give the names of a list the same hashes. */
  predicate SameHashes(names: seq<string>, a: map<string, Bytes>, b: map<string, Bytes>, sha: Bytes -> Digest) {
    forall name :: name in names && name in a && name in b ==> sha(a[name]) == sha(b[name])
  }

  lemma PairsDetermine(xs: seq<string>, a: map<string, Bytes>, ys: seq<string>, b: map<string, Bytes>, sha: Bytes -> Digest)
    requires Readable(xs, a) && Readable(ys, b)
    ensures Pairs(xs, a, sha) == Pairs(ys, b, sha) <==> xs == ys && forall i :: 0 <= i < |xs| ==> sha(a[xs[i]]) == sha(b[ys[i]])
  {
    var p, q := Pairs(xs, a, sha), Pairs(ys, b, sha);
    if p == q {
      assert |xs| == |p| == |q| == |ys|;
      forall i | 0 <= i < |xs| ensures xs[i] == ys[i] && sha(a[xs[i]]) == sha(b[ys[i]]) {
        assert p[i] == q[i];
        HexIsInjective(sha(a[xs[i]]), sha(b[ys[i]]));
      }
    }
  }

  /** Equal entry lists are permutations of the same names over files of the same hashes. */
  lemma {:induction false} PairsOfSorted(xs: seq<string>, a: map<string, Bytes>, ys: seq<string>, b: map<string, Bytes>, sha: Bytes -> Digest)
    requires Readable(Sort(xs), a) && Readable(Sort(ys), b)
    ensures Pairs(Sort(xs), a, sha) == Pairs(Sort(ys), b, sha) <==> multiset(xs) == multiset(ys) && SameHashes(xs, a, b, sha)
  {
    PairsDetermine(Sort(xs), a, Sort(ys), b, sha);
    SortForgetsOrder(xs, ys);
    forall name ensures name in Sort(xs) <==> name in xs { SortKeepsMembers(xs, name); }
    if Pairs(Sort(xs), a, sha) == Pairs(Sort(ys), b, sha) {
      forall name | name in xs && name in a && name in b ensures sha(a[name]) == sha(b[name]) {
        assert name in Sort(xs);
        var i :| 0 <= i < |Sort(xs)| && Sort(xs)[i] == name;
      }
    }
  }

  /** Two validated manifests print one text exactly when they have the same name, yaml hash, and hashed files, each list up to order. */
  lemma TextDeterminesTheManifest(m: Manifest, yaml: Bytes, dir: Directory, m': Manifest, yaml': Bytes, dir': Directory, sha: Bytes -> Digest)
    requires Validated(m) && AllReadable(m, dir) && Validated(m') && AllReadable(m', dir')
    ensures TextOf(m, yaml, dir, sha) == TextOf(m', yaml', dir', sha) <==>
            && m.name == m'.name && sha(yaml) == sha(yaml')
            && multiset(m.handlers) == multiset(m'.handlers) && SameHashes(m.handlers, dir.handlers, dir'.handlers, sha)
            && multiset(m.luas) == multiset(m'.luas) && SameHashes(m.luas, dir.luas, dir'.luas, sha)
  {
    CoverageDeterminesTheManifest(m, yaml, dir, m', yaml', dir', sha);
    TextIsDecodable(m, yaml, dir, sha);
    TextIsDecodable(m', yaml', dir', sha);
    if CoveredBy(m, yaml, dir, sha) == CoveredBy(m', yaml', dir', sha) {
      SameCoverageSameText(m, yaml, dir, m', yaml', dir', sha);
    }
  }

  lemma CoverageDeterminesTheManifest(m: Manifest, yaml: Bytes, dir: Directory, m': Manifest, yaml': Bytes, dir': Directory, sha: Bytes -> Digest)
    requires AllReadable(m, dir) && AllReadable(m', dir')
    ensures CoveredBy(m, yaml, dir, sha) == CoveredBy(m', yaml', dir', sha) <==>
            && m.name == m'.name && sha(yaml) == sha(yaml')
            && multiset(m.handlers) == multiset(m'.handlers) && SameHashes(m.handlers, dir.handlers, dir'.handlers, sha)
            && multiset(m.luas) == multiset(m'.luas) && SameHashes(m.luas, dir.luas, dir'.luas, sha)
  {
    SortKeeps(m, dir);
    SortKeeps(m', dir');
    PairsOfSorted(m.handlers, dir.handlers, m'.handlers, dir'.handlers, sha);
    PairsOfSorted(m.luas, dir.luas, m'.luas, dir'.luas, sha);
    if Hex(sha(yaml)) == Hex(sha(yaml')) { HexIsInjective(sha(yaml), sha(yaml')); }
  }

  lemma SamePairsSameEntries(tag: string, xs: seq<string>, a: map<string, Bytes>, ys: seq<string>, b: map<string, Bytes>, sha: Bytes -> Digest)
    requires Readable(xs, a) && Readable(ys, b) && Pairs(xs, a, sha) == Pairs(ys, b, sha)
    ensures Entries(tag, xs, a, sha) == Entries(tag, ys, b, sha)
  {
    PairsDetermine(xs, a, ys, b, sha);
  }

  lemma SameCoverageSameText(m: Manifest, yaml: Bytes, dir: Directory, m': Manifest, yaml': Bytes, dir': Directory, sha: Bytes -> Digest)
    requires AllReadable(m, dir) && AllReadable(m', dir') && CoveredBy(m, yaml, dir, sha) == CoveredBy(m', yaml', dir', sha)
    ensures TextOf(m, yaml, dir, sha) == TextOf(m', yaml', dir', sha)
  {
    SortKeeps(m, dir);
    SortKeeps(m', dir');
    SamePairsSameEntries(HANDLER_TAG, Sort(m.handlers), dir.handlers, Sort(m'.handlers), dir'.handlers, sha);
    SamePairsSameEntries(LUA_TAG, Sort(m.luas), dir.luas, Sort(m'.luas), dir'.luas, sha);
  }

  /** Listing the handlers or the libraries in another order changes neither the text nor whether it is printed. */
  lemma TextIgnoresOrder(m: Manifest, m': Manifest, yaml: Bytes, dir: Directory, sha: Bytes -> Digest)
    requires m.name == m'.name && multiset(m.handlers) == multiset(m'.handlers) && multiset(m.luas) == multiset(m'.luas)
    ensures AllReadable(m, dir) <==> AllReadable(m', dir)
    ensures AllValid(m) <==> AllValid(m')
    ensures AllReadable(m, dir) ==> TextOf(m, yaml, dir, sha) == TextOf(m', yaml, dir, sha)
  {
    SortKeeps(m, dir);
    SortKeeps(m', dir);
    SortForgetsOrder(m.handlers, m'.handlers);
    SortForgetsOrder(m.luas, m'.luas);
  }
}
