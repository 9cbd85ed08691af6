/** The two text transformations of the FFI generator: the version file, and the namespace filter. */
module GeneratedText {
  import opened Wrappers

  // ---- searching ----

  predicate At(s: string, pat: string, i: nat) {
    i + |pat| <= |s| && forall k :: 0 <= k < |pat| ==> s[i + k] == pat[k]
  }

  // str::find from a position on: the first occurrence.
  function Find(s: string, pat: string, from: nat): (r: Option<nat>)
    ensures r.Some? ==> from <= r.value && At(s, pat, r.value)
    ensures r.Some? ==> forall j :: from <= j < r.value ==> !At(s, pat, j)
    ensures r.None? ==> forall j :: from <= j ==> !At(s, pat, j)
    decreases |s| - from
  {
    if from + |pat| > |s| then None
    else if At(s, pat, from) then Some(from)
    else Find(s, pat, from + 1)
  }

  lemma FirstIsFound(s: string, pat: string, from: nat, i: nat)
    requires from <= i && At(s, pat, i) && forall j :: from <= j < i ==> !At(s, pat, j)
    ensures Find(s, pat, from) == Some(i)
  {}

  lemma NotAt(s: string, pat: string, i: nat, k: nat)
    requires k < |pat| && i + k < |s| && s[i + k] != pat[k]
    ensures !At(s, pat, i)
  {}

  // ---- the version file ----

  const U64_MAX: nat := 0xffff_ffff_ffff_ffff
  const VERSION_PREFIX := "RAFT_STORE_PROXY_VERSION"
  const VERSION_HEAD := "#pragma once\n" + "#include <cstdint>\n" + "namespace DB { constexpr uint64_t "
  const VERSION_TAIL := "ull; }"

  predicate IsDigit(c: char) {
    '0' <= c <= '9'
  }

  function Digit(d: nat): (c: char)
    requires d < 10
    ensures IsDigit(c) && (c as int) - ('0' as int) == d
  {
    ('0' as int + d) as char
  }

  function Decimal(n: nat): (s: string)
    ensures |s| > 0 && forall i :: 0 <= i < |s| ==> IsDigit(s[i])
  {
    if n < 10 then [Digit(n)] else Decimal(n / 10) + [Digit(n % 10)]
  }

  // The value of a string of digits; None if some character is not one.
  function Value(s: string): (r: Option<nat>) {
    if s == [] then Some(0)
    else if !IsDigit(s[|s| - 1]) || Value(s[..|s| - 1]).None? then None
    else Some(10 * Value(s[..|s| - 1]).value + (s[|s| - 1] as int - '0' as int))
  }

  // str::parse::<u64>: an optional plus sign, at least one digit, no overflow.
  function ParseU64(s: string): (r: Option<nat>) {
    var digits := if |s| > 1 && s[0] == '+' then s[1..] else s;
    if digits == [] || Value(digits).None? || Value(digits).value > U64_MAX then None else Value(digits)
  }

  function MakeVersionFile(version: nat): (text: string) {
    VERSION_HEAD + VERSION_PREFIX + " = " + Decimal(version) + VERSION_TAIL
  }

  // None where the source panics.
  function ReadVersionFile(text: string): (r: Option<nat>) {
    NumberAfter(text, VERSION_PREFIX, "ull")
  }

  // The number between a name, three characters further, and a suffix.
  function NumberAfter(text: string, name: string, suffix: string): (r: Option<nat>) {
    var begin := Find(text, name, 0);
    if begin.None? || begin.value + |name| + 3 > |text| then None else
    var rest := text[begin.value + |name| + 3..];
    var end := Find(rest, suffix, 0);
    if end.None? then None else ParseU64(rest[..end.value])
  }

  lemma {:induction false} DecimalValue(n: nat)
    ensures Value(Decimal(n)) == Some(n)
  {
    if n >= 10 {
      DecimalValue(n / 10);
      var s := Decimal(n);
      assert s[..|s| - 1] == Decimal(n / 10);
    }
  }

  lemma HeadHasNoR(i: nat)
    requires i < |VERSION_HEAD|
    ensures VERSION_HEAD[i] != 'R'
  {}

  // A name is found behind a text that does not hold its first character.
  lemma FoundBehind(head: string, name: string, rest: string)
    requires name != [] && forall i :: 0 <= i < |head| ==> head[i] != name[0]
    ensures Find(head + name + rest, name, 0) == Some(|head|)
  {
    var text := head + name + rest;
    forall j | 0 <= j < |head| ensures !At(text, name, j) { NotAt(text, name, j, 0); }
    FirstIsFound(text, name, 0, |head|);
  }

  // The name is found behind the head ...
  lemma NameIsFound(rest: string)
    ensures Find(VERSION_HEAD + VERSION_PREFIX + rest, VERSION_PREFIX, 0) == Some(|VERSION_HEAD|)
  {
    forall i | 0 <= i < |VERSION_HEAD| ensures VERSION_HEAD[i] != VERSION_PREFIX[0] { HeadHasNoR(i); }
    FoundBehind(VERSION_HEAD, VERSION_PREFIX, rest);
  }

  // ... and the literal's suffix behind the digits.
  lemma DigitsEnd(digits: string)
    requires forall i :: 0 <= i < |digits| ==> IsDigit(digits[i])
    ensures Find(digits + VERSION_TAIL, "ull", 0) == Some(|digits|)
  {
    var rest := digits + VERSION_TAIL;
    forall j | 0 <= j < |digits| ensures !At(rest, "ull", j) {
      NotAt(rest, "ull", j, 0);
    }
    assert At(rest, "ull", |digits|);
    FirstIsFound(rest, "ull", 0, |digits|);
  }

  lemma Pieces(head: string, name: string, equals: string, digits: string, tail: string)
    ensures head + name + equals + digits + tail == head + name + (equals + (digits + tail))
    ensures (head + name + (equals + (digits + tail)))[|head| + |name| + |equals|..] == digits + tail
    ensures (digits + tail)[..|digits|] == digits
  {}

  lemma NumberIsCutOut(text: string, name: string, suffix: string, i: nat, rest: string, digits: string)
    requires Find(text, name, 0) == Some(i) && i + |name| + 3 <= |text| && text[i + |name| + 3..] == rest
    requires Find(rest, suffix, 0) == Some(|digits|) && |digits| <= |rest| && rest[..|digits|] == digits
    ensures NumberAfter(text, name, suffix) == ParseU64(digits)
  {}

  lemma PrintedNumber(head: string, name: string, equals: string, digits: string, tail: string, suffix: string)
    requires |equals| == 3 && Find(digits + tail, suffix, 0) == Some(|digits|)
    requires Find(head + name + (equals + (digits + tail)), name, 0) == Some(|head|)
    ensures NumberAfter(head + name + equals + digits + tail, name, suffix) == ParseU64(digits)
  {
    Pieces(head, name, equals, digits, tail);
    NumberIsCutOut(head + name + (equals + (digits + tail)), name, suffix, |head|, digits + tail, digits);
  }

  // Reading back what was printed gives the version, for every 64-bit version.
  lemma VersionRoundTrip(version: nat)
    requires version <= U64_MAX
    ensures ReadVersionFile(MakeVersionFile(version)) == Some(version)
  {
    var digits := Decimal(version);
    NameIsFound(" = " + (digits + VERSION_TAIL));
    DigitsEnd(digits);
    PrintedNumber(VERSION_HEAD, VERSION_PREFIX, " = ", digits, VERSION_TAIL, "ull");
    DecimalValue(version);
  }

  // A number too large for 64 bits, or with anything but digits in it, is not read.
  lemma ParseIff(s: string, n: nat)
    requires s != [] && IsDigit(s[0])
    ensures ParseU64(s) == Some(n) <==> Value(s) == Some(n) && n <= 0xffff_ffff_ffff_ffff
  {}

  // Digits count ten times as much as those behind them.
  lemma {:induction false} ValueIsPositional(a: string, b: string)
    requires Value(a).Some? && Value(b).Some?
    ensures Value(a + b) == Some(Value(a).value * Power(10, |b|) + Value(b).value)
  {
    if b == [] {
      assert a + b == a;
    } else {
      var front := b[..|b| - 1];
      assert (a + b)[..|a + b| - 1] == a + front;
      ValueIsPositional(a, front);
      TenTimes(Value(a).value, Power(10, |front|));
    }
  }

  lemma TenTimes(x: nat, y: nat)
    ensures x * (10 * y) == 10 * (x * y)
  {}

  function Power(x: nat, k: nat): (n: nat) {
    if k == 0 then 1 else x * Power(x, k - 1)
  }

  // ---- the namespace filter ----

  const ROOT_PREFIX := "pub mod root {\n"
  const ROOT_SUFFIX := "\n}\n"
  const DB_PREFIX := "    pub mod DB {\n"
  const DB_SUFFIX := "\n    }"

  // The texts that delimit the root module and the module to keep.
  datatype Markers = Markers(root: string, db: string, suffix: string, end: string)

  const MARKERS := Markers(ROOT_PREFIX, DB_PREFIX, DB_SUFFIX, ROOT_SUFFIX)

  // Where the root module's header ends, and where the kept module begins and ends.
  datatype Cuts = Cuts(a1: nat, b1: nat, b2: nat)

  function FindCuts(m: Markers, s: string): (r: Option<Cuts>)
    ensures r.Some? ==>
      |m.root| <= r.value.a1 <= |s| && r.value.b1 + |m.suffix| <= r.value.b2 <= |s|
  {
    var a, b := Find(s, m.root, 0), Find(s, m.db, 0);
    if a.None? || b.None? then None else
    var c := Find(s, m.suffix, b.value);
    if c.None? then None else Some(Cuts(a.value + |m.root|, b.value, c.value + |m.suffix|))
  }

  function Filter(m: Markers, s: string): (r: Option<string>) {
    var c := FindCuts(m, s);
    if c.None? then None else Some(s[..c.value.a1] + s[c.value.b1..c.value.b2] + m.end)
  }

  // None where the source panics.
  function FilterByNamespace(s: string): (r: Option<string>) {
    Filter(MARKERS, s)
  }

  // What the proofs use of the markers: the two headers end a line and the suffix begins one,
  // there are no other line ends in them, and the kept header does not continue a suffix.
  ghost predicate Lines(m: Markers) {
    && |m.root| > 0 && m.root[|m.root| - 1] == '\n'
    && |m.db| > 0 && (forall k :: 0 <= k < |m.db| - 1 ==> m.db[k] != '\n')
    && |m.suffix| > 0 && m.suffix[0] == '\n' && (forall k :: 0 < k < |m.suffix| ==> m.suffix[k] != '\n')
    && exists k :: 0 <= k < |m.suffix| - 1 && k < |m.db| && Differ(m.suffix, m.db, k)
  }

  ghost predicate Differ(suffix: string, db: string, k: nat)
    requires k + 1 < |suffix| && k < |db|
  {
    suffix[k + 1] != db[k]
  }

  lemma MarkersAreLines()
    ensures Lines(MARKERS)
  {
    assert Differ(DB_SUFFIX, DB_PREFIX, 4);
  }

  ghost predicate AreCuts(m: Markers, s: string, c: Cuts) {
    && |m.root| <= c.a1 && c.b1 + |m.suffix| <= c.b2
    && First(s, m.root, 0, c.a1 - |m.root|) && First(s, m.db, 0, c.b1) && First(s, m.suffix, c.b1, c.b2 - |m.suffix|)
  }

  ghost predicate First(s: string, pat: string, from: nat, i: nat) {
    from <= i && At(s, pat, i) && forall j :: from <= j < i ==> !At(s, pat, j)
  }

  lemma CutsIff(m: Markers, s: string, c: Cuts)
    ensures FindCuts(m, s) == Some(c) <==> AreCuts(m, s, c)
  {
    if AreCuts(m, s, c) {
      FirstIsFound(s, m.root, 0, c.a1 - |m.root|);
      FirstIsFound(s, m.db, 0, c.b1);
      FirstIsFound(s, m.suffix, c.b1, c.b2 - |m.suffix|);
    }
  }

  // The output t of the filter on s: the input up to a1, then the block b1..b2, then the end.
  ghost predicate Filtered(m: Markers, s: string, t: string, c: Cuts) {
    Lines(m) && AreCuts(m, s, c) && c.a1 <= |s| && c.b2 <= |s| && Spliced(s, t, c.a1, c.b1, c.b2, |m.end|)
  }

  ghost predicate Spliced(s: string, t: string, a1: nat, b1: nat, b2: nat, rest: nat)
    requires a1 <= |s| && b1 <= b2 <= |s|
  {
    && |t| == a1 + (b2 - b1) + rest
    && (forall i :: 0 <= i < a1 ==> t[i] == s[i])
    && (forall i :: a1 <= i < a1 + (b2 - b1) ==> t[i] == s[i - a1 + b1])
  }

  lemma Splice(s: string, a1: nat, b1: nat, b2: nat, end: string)
    requires a1 <= |s| && b1 <= b2 <= |s|
    ensures Spliced(s, s[..a1] + s[b1..b2] + end, a1, b1, b2, |end|)
  {}

  lemma FilterGives(m: Markers, s: string, t: string, c: Cuts)
    requires Lines(m) && FindCuts(m, s) == Some(c) && Filter(m, s) == Some(t)
    ensures Filtered(m, s, t, c)
  {
    CutsIff(m, s, c);
    Splice(s, c.a1, c.b1, c.b2, m.end);
  }

  lemma InFront(m: Markers, s: string, t: string, c: Cuts, pat: string, j: nat)
    requires Filtered(m, s, t, c) && j + |pat| <= c.a1
    ensures At(t, pat, j) <==> At(s, pat, j)
  {
    forall k | 0 <= k < |pat| ensures t[j + k] == pat[k] <==> s[j + k] == pat[k] {}
  }

  lemma InBlock(m: Markers, s: string, t: string, c: Cuts, pat: string, x: nat)
    requires Filtered(m, s, t, c) && x + |pat| <= c.b2 - c.b1
    ensures At(t, pat, c.a1 + x) <==> At(s, pat, c.b1 + x)
  {
    forall k | 0 <= k < |pat| ensures t[c.a1 + x + k] == pat[k] <==> s[c.b1 + x + k] == pat[k] {
      assert c.a1 + x + k - c.a1 + c.b1 == c.b1 + x + k;
    }
  }

  // The root header ends a line, at a1 - 1 of input and output.
  lemma LineEnds(m: Markers, s: string, t: string, c: Cuts)
    requires Filtered(m, s, t, c)
    ensures s[c.a1 - 1] == '\n' && t[c.a1 - 1] == '\n'
  {
    assert s[c.a1 - |m.root| + (|m.root| - 1)] == m.root[|m.root| - 1];
  }

  // An occurrence of the kept header cannot reach across the end of the root header.
  lemma HeaderDoesNotStraddle(m: Markers, t: string, a1: nat, j: nat)
    requires Lines(m) && 0 < a1 <= |t| && t[a1 - 1] == '\n' && j < a1 < j + |m.db|
    ensures !At(t, m.db, j)
  {
    NotAt(t, m.db, j, a1 - 1 - j);
  }

  // The block ends behind its header.
  lemma BlockHoldsHeader(m: Markers, s: string, c: Cuts)
    requires Lines(m) && AreCuts(m, s, c)
    ensures c.b1 + |m.db| + |m.suffix| - 1 <= c.b2
  {
    forall i | c.b1 <= i < c.b1 + |m.db| - 1 ensures !At(s, m.suffix, i) {
      assert s[c.b1 + (i - c.b1)] == m.db[i - c.b1];
      NotAt(s, m.suffix, i, 0);
    }
    assert At(s, m.suffix, c.b2 - |m.suffix|);
  }

  lemma RootStays(m: Markers, s: string, t: string, c: Cuts)
    requires Filtered(m, s, t, c)
    ensures First(t, m.root, 0, c.a1 - |m.root|)
  {
    InFront(m, s, t, c, m.root, c.a1 - |m.root|);
    forall j | 0 <= j < c.a1 - |m.root| ensures !At(t, m.root, j) {
      InFront(m, s, t, c, m.root, j);
    }
  }

  // In the copied block the suffix is found at its end and not before.
  lemma SuffixInBlock(m: Markers, s: string, t: string, c: Cuts)
    requires Filtered(m, s, t, c)
    ensures First(t, m.suffix, c.a1, c.a1 + (c.b2 - c.b1) - |m.suffix|)
  {
    InBlock(m, s, t, c, m.suffix, c.b2 - c.b1 - |m.suffix|);
    forall j | c.a1 <= j < c.a1 + (c.b2 - c.b1) - |m.suffix| ensures !At(t, m.suffix, j) {
      InBlock(m, s, t, c, m.suffix, j - c.a1);
    }
  }

  // The kept module follows the root header: it is found again right behind it.
  lemma BlockAfterRoot(m: Markers, s: string, t: string, c: Cuts)
    requires Filtered(m, s, t, c) && c.a1 <= c.b1
    ensures AreCuts(m, t, Cuts(c.a1, c.a1, c.a1 + (c.b2 - c.b1)))
  {
    RootStays(m, s, t, c);
    LineEnds(m, s, t, c);
    BlockHoldsHeader(m, s, c);
    InBlock(m, s, t, c, m.db, 0);
    forall j | 0 <= j < c.a1 ensures !At(t, m.db, j) {
      if j + |m.db| <= c.a1 {
        InFront(m, s, t, c, m.db, j);
      } else {
        HeaderDoesNotStraddle(m, t, c.a1, j);
      }
    }
    SuffixInBlock(m, s, t, c);
  }

  // The kept module begins before the root header ends: its header is found where it was.
  lemma HeaderBeforeRoot(m: Markers, s: string, t: string, c: Cuts)
    requires Filtered(m, s, t, c) && c.b1 < c.a1
    ensures c.b1 + |m.db| <= c.a1 && First(t, m.db, 0, c.b1)
  {
    LineEnds(m, s, t, c);
    if c.a1 < c.b1 + |m.db| { HeaderDoesNotStraddle(m, s, c.a1, c.b1); }
    InFront(m, s, t, c, m.db, c.b1);
    forall j | 0 <= j < c.b1 ensures !At(t, m.db, j) {
      InFront(m, s, t, c, m.db, j);
    }
  }

  lemma BlockBeforeRoot(m: Markers, s: string, t: string, c: Cuts)
    requires Filtered(m, s, t, c) && c.b1 < c.a1 && c.b2 <= c.a1
    ensures AreCuts(m, t, c)
  {
    RootStays(m, s, t, c);
    HeaderBeforeRoot(m, s, t, c);
    InFront(m, s, t, c, m.suffix, c.b2 - |m.suffix|);
    forall j | c.b1 <= j < c.b2 - |m.suffix| ensures !At(t, m.suffix, j) {
      InFront(m, s, t, c, m.suffix, j);
    }
  }

  // Behind the root header stands a copy of the kept header, so no suffix reaches across a1.
  lemma SuffixDoesNotStraddle(m: Markers, s: string, t: string, c: Cuts, j: nat)
    requires Filtered(m, s, t, c) && j < c.a1 < j + |m.suffix|
    ensures !At(t, m.suffix, j)
  {
    LineEnds(m, s, t, c);
    BlockHoldsHeader(m, s, c);
    InBlock(m, s, t, c, m.db, 0);
    if j < c.a1 - 1 {
      NotAt(t, m.suffix, j, c.a1 - 1 - j);
    } else {
      var k :| 0 <= k < |m.suffix| - 1 && k < |m.db| && Differ(m.suffix, m.db, k);
      assert t[c.a1 + k] == m.db[k];
      NotAt(t, m.suffix, j, k + 1);
    }
  }

  // The kept module reaches across the end of the root header: the second time it is cut behind
  // its own copy.
  lemma BlockAcrossRoot(m: Markers, s: string, t: string, c: Cuts)
    requires Filtered(m, s, t, c) && c.b1 < c.a1 < c.b2
    ensures AreCuts(m, t, Cuts(c.a1, c.b1, c.a1 + (c.b2 - c.b1)))
  {
    RootStays(m, s, t, c);
    HeaderBeforeRoot(m, s, t, c);
    SuffixInBlock(m, s, t, c);
    forall j | c.b1 <= j < c.a1 ensures !At(t, m.suffix, j) {
      if j + |m.suffix| <= c.a1 {
        InFront(m, s, t, c, m.suffix, j);
      } else {
        SuffixDoesNotStraddle(m, s, t, c, j);
      }
    }
  }

  // The text that cutting t at d gives.
  lemma FilterAt(m: Markers, t: string, d: Cuts)
    requires AreCuts(m, t, d)
    ensures d.a1 <= |t| && d.b2 <= |t| && Filter(m, t) == Some(t[..d.a1] + t[d.b1..d.b2] + m.end)
  {
    CutsIff(m, t, d);
  }

  lemma SameText(s: string, t: string, a1: nat, b1: nat, b2: nat, end: string)
    requires a1 <= |s| && b1 <= b2 <= |s| && t == s[..a1] + s[b1..b2] + end
    ensures t[..a1] + t[a1..a1 + (b2 - b1)] + end == t
    ensures b2 <= a1 ==> t[..a1] + t[b1..b2] + end == t
  {
    assert t[..a1] == s[..a1];
    assert t[a1..a1 + (b2 - b1)] == s[b1..b2];
    if b2 <= a1 { assert t[b1..b2] == s[b1..b2]; }
  }

  lemma StableAfter(m: Markers, s: string, t: string, c: Cuts)
    requires Filtered(m, s, t, c) && c.a1 <= |s| && c.b2 <= |s| && t == s[..c.a1] + s[c.b1..c.b2] + m.end
    requires c.a1 <= c.b1
    ensures Filter(m, t) == Some(t)
  {
    BlockAfterRoot(m, s, t, c);
    FilterAt(m, t, Cuts(c.a1, c.a1, c.a1 + (c.b2 - c.b1)));
    SameText(s, t, c.a1, c.b1, c.b2, m.end);
  }

  lemma StableBefore(m: Markers, s: string, t: string, c: Cuts)
    requires Filtered(m, s, t, c) && c.a1 <= |s| && c.b2 <= |s| && t == s[..c.a1] + s[c.b1..c.b2] + m.end
    requires c.b1 < c.a1 && c.b2 <= c.a1
    ensures Filter(m, t) == Some(t)
  {
    BlockBeforeRoot(m, s, t, c);
    FilterAt(m, t, c);
    SameText(s, t, c.a1, c.b1, c.b2, m.end);
  }

  lemma GrowsAcross(m: Markers, s: string, t: string, c: Cuts)
    requires Filtered(m, s, t, c) && c.b1 < c.a1 < c.b2
    ensures Filter(m, t).Some? && |Filter(m, t).value| > |t|
  {
    BlockAcrossRoot(m, s, t, c);
    FilterAt(m, t, Cuts(c.a1, c.b1, c.a1 + (c.b2 - c.b1)));
  }

  // Filtering twice is filtering once exactly if the DB module does not reach across the end of
  // the root header; in particular whenever it begins behind it.
  lemma FilterIsIdempotentIff(s: string, c: Cuts, t: string)
    requires FindCuts(MARKERS, s) == Some(c) && FilterByNamespace(s) == Some(t)
    ensures FilterByNamespace(t) == Some(t) <==> !(c.b1 < c.a1 < c.b2)
  {
    MarkersAreLines();
    FilterGives(MARKERS, s, t, c);
    if c.a1 <= c.b1 { StableAfter(MARKERS, s, t, c); }
    else if c.b2 <= c.a1 { StableBefore(MARKERS, s, t, c); }
    else { GrowsAcross(MARKERS, s, t, c); }
  }

  lemma CharacterOf(s: string, pat: string, i: nat, k: nat)
    requires At(s, pat, i) && k < |pat|
    ensures s[i + k] == pat[k]
  {}

  // The kept module's header in front of the root header, its suffix behind.
  const STRADDLING := DB_PREFIX + ROOT_PREFIX + DB_SUFFIX

  lemma NoRootBefore(j: nat)
    requires j < 17
    ensures !At(STRADDLING, ROOT_PREFIX, j)
  {
    if At(STRADDLING, ROOT_PREFIX, j) {
      CharacterOf(STRADDLING, ROOT_PREFIX, j, 0);
      CharacterOf(STRADDLING, ROOT_PREFIX, j, 8);
    }
  }

  lemma NoSuffixBefore(j: nat)
    requires j < 32
    ensures !At(STRADDLING, DB_SUFFIX, j)
  {
    if At(STRADDLING, DB_SUFFIX, j) {
      CharacterOf(STRADDLING, DB_SUFFIX, j, 0);
      CharacterOf(STRADDLING, DB_SUFFIX, j, 1);
    }
  }

  lemma PartsStand(a: string, b: string, c: string)
    ensures At(a + b + c, a, 0) && At(a + b + c, b, |a|) && At(a + b + c, c, |a| + |b|)
  {}

  lemma RootIsFirst()
    ensures First(STRADDLING, ROOT_PREFIX, 0, 17)
  {
    PartsStand(DB_PREFIX, ROOT_PREFIX, DB_SUFFIX);
    forall j | 0 <= j < 17 ensures !At(STRADDLING, ROOT_PREFIX, j) { NoRootBefore(j); }
  }

  lemma SuffixIsFirst()
    ensures First(STRADDLING, DB_SUFFIX, 0, 32) && First(STRADDLING, DB_PREFIX, 0, 0)
  {
    PartsStand(DB_PREFIX, ROOT_PREFIX, DB_SUFFIX);
    forall j | 0 <= j < 32 ensures !At(STRADDLING, DB_SUFFIX, j) { NoSuffixBefore(j); }
  }

  lemma CutsFromFirsts(m: Markers, s: string, a: nat, b: nat, c: nat)
    requires First(s, m.root, 0, a) && First(s, m.db, 0, b) && First(s, m.suffix, b, c)
    ensures FindCuts(m, s) == Some(Cuts(a + |m.root|, b, c + |m.suffix|))
  {
    CutsIff(m, s, Cuts(a + |m.root|, b, c + |m.suffix|));
  }

  lemma CutsOfStraddling()
    ensures FindCuts(MARKERS, STRADDLING) == Some(Cuts(32, 0, 38))
  {
    RootIsFirst();
    SuffixIsFirst();
    CutsFromFirsts(MARKERS, STRADDLING, 17, 0, 32);
  }

  // An input on which filtering twice differs from filtering once.
  lemma FilterIsNotIdempotentEverywhere()
    ensures FilterByNamespace(STRADDLING).Some?
    ensures FilterByNamespace(FilterByNamespace(STRADDLING).value) != FilterByNamespace(STRADDLING)
  {
    CutsOfStraddling();
    FilterIsIdempotentIff(STRADDLING, Cuts(32, 0, 38), FilterByNamespace(STRADDLING).value);
  }
}
