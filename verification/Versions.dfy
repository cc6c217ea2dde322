/** Which version counts as an update (native_client/internal/updater/manifest.go). */
module Versions {

  import opened Prelude

  // ---------- the library calls ----------

  /** unicode.IsSpace. */
  predicate IsSpace(c: char) {
    var n := c as int;
    || 9 <= n <= 13 || n == 32 || n == 0x85 || n == 0xA0 || n == 0x1680 || 0x2000 <= n <= 0x200A
    || n == 0x2028 || n == 0x2029 || n == 0x202F || n == 0x205F || n == 0x3000
  }

  function TrimLeft(s: string, space: char -> bool): string {
    if s != "" && space(s[0]) then TrimLeft(s[1..], space) else s
  }

  function TrimRight(s: string, space: char -> bool): string {
    if s != "" && space(s[|s| - 1]) then TrimRight(s[..|s| - 1], space) else s
  }

  function Trim(s: string, space: char -> bool): string {
    TrimRight(TrimLeft(s, space), space)
  }

  /** strings.TrimPrefix(s, "v"). */
  function TrimV(s: string): string {
    if s != "" && s[0] == 'v' then s[1..] else s
  }

  function TrimSpace(s: string): string {
    Trim(s, IsSpace)
  }

  /** Index of the first character f holds of, or the length. */
  function IndexIf(s: string, f: char -> bool): (i: nat)
    ensures i <= |s|
  {
    if s == "" || f(s[0]) then 0 else 1 + IndexIf(s[1..], f)
  }

  predicate IsDot(c: char) { c == '.' }

  predicate IsMark(c: char) { c == '-' || c == '+' }

  /** strings.SplitN(s, ".", n): the last of n parts keeps its dots. */
  function SplitN(s: string, n: nat): (parts: seq<string>)
    ensures n >= 1 ==> 1 <= |parts| <= n
  {
    if n == 0 then []
    else
      var i := IndexIf(s, IsDot);
      if n == 1 || i == |s| then [s] else [s[..i]] + SplitN(s[i + 1..], n - 1)
  }

  predicate IsDigit(c: char) { '0' <= c <= '9' }

  predicate AllDigits(s: string) {
    s != "" && forall i :: 0 <= i < |s| ==> IsDigit(s[i])
  }

  function DigitValue(c: char): nat
    requires IsDigit(c)
  {
    c as int - '0' as int
  }

  function Value(s: string): nat
    requires forall i :: 0 <= i < |s| ==> IsDigit(s[i])
  {
    if s == "" then 0 else 10 * Value(s[..|s| - 1]) + DigitValue(s[|s| - 1])
  }

  const MAX_INT := 0x7FFF_FFFF_FFFF_FFFF

  /** strconv.Atoi with 64-bit int. */
  function Atoi(s: string): Option<int> {
    var digits := if s != "" && IsMark(s[0]) then s[1..] else s;
    if !AllDigits(digits) then None
    else
      var n: int := if s[0] == '-' then -(Value(digits) as int) else Value(digits);
      if -MAX_INT - 1 <= n <= MAX_INT then Some(n) else None
  }

  // ---------- parseVersion and preRelease ----------

  function Normalize(v: string, space: char -> bool): string {
    Trim(TrimV(Trim(v, space)), space)
  }

  function Normalized(v: string): string {
    Normalize(v, IsSpace)
  }

  function Core(v: string): string {
    var t := Normalized(v);
    t[..IndexIf(t, IsMark)]
  }

  function PreRelease(v: string): string {
    var t := Normalized(v);
    var i := IndexIf(t, IsMark);
    if i < |t| then t[i + 1..] else ""
  }

  datatype Version = Version(major: int, minor: int, patch: int) {
    function Components(): seq<int> { [major, minor, patch] }
  }

  predicate AllNumbers(parts: seq<string>) {
    forall i :: 0 <= i < |parts| ==> Atoi(parts[i]).Some?
  }

  /** Missing components are zero. */
  function Component(parts: seq<string>, i: nat): int
    requires AllNumbers(parts)
  {
    if i < |parts| then Atoi(parts[i]).value else 0
  }

  function FromParts(parts: seq<string>): Option<Version> {
    if AllNumbers(parts) then Some(Version(Component(parts, 0), Component(parts, 1), Component(parts, 2))) else None
  }

  function Parse(v: string): Option<Version> {
    FromParts(SplitN(Core(v), 3))
  }

  lemma PartsParsed(parts: seq<string>, out: seq<int>)
    requires |out| == 3 && |parts| <= 3
    requires forall k :: 0 <= k < |parts| ==> Atoi(parts[k]) == Some(out[k])
    requires forall k :: |parts| <= k < 3 ==> out[k] == 0
    ensures FromParts(parts).Some? && out == FromParts(parts).value.Components()
  {}

  method ParseVersion(v: string) returns (out: array<int>, ok: bool)
    ensures out.Length == 3
    ensures ok <==> Parse(v).Some?
    ensures ok ==> out[..] == Parse(v).value.Components()
  {
    var parts := SplitN(Core(v), 3);
    out := new int[3](_ => 0);
    for i := 0 to |parts|
      invariant forall k :: 0 <= k < i ==> Atoi(parts[k]) == Some(out[k])
      invariant forall k :: i <= k < 3 ==> out[k] == 0
    {
      var n := Atoi(parts[i]);
      if n.None? {
        return out, false;
      }
      out[i] := n.value;
    }
    PartsParsed(parts, out[..]);
    ok := true;
  }

  // ---------- the order ----------

  /** What decides between two versions that parse: the numbers, then having no
      suffix. */
  datatype Rank = Rank(version: Version, release: bool)

  function RankOf(v: string): Rank
    requires Parse(v).Some?
  {
    Rank(Parse(v).value, PreRelease(v) == "")
  }

  /** Lexicographic order on (major, minor, patch, release). */
  predicate Less(a: Rank, b: Rank) {
    var x, y := a.version, b.version;
    || x.major < y.major
    || (x.major == y.major && x.minor < y.minor)
    || (x.major == y.major && x.minor == y.minor && x.patch < y.patch)
    || (x == y && !a.release && b.release)
  }

  predicate Newer(latest: string, current: string) {
    if Parse(latest).Some? && Parse(current).Some? then Less(RankOf(current), RankOf(latest))
    else TrimSpace(latest) != "" && latest != current
  }

  /** Lexicographic order of component triples. */
  predicate LexLess(x: seq<int>, y: seq<int>)
    requires |x| == |y| == 3
  {
    || x[0] < y[0]
    || (x[0] == y[0] && x[1] < y[1])
    || (x[0] == y[0] && x[1] == y[1] && x[2] < y[2])
  }

  /** The loop of IsNewer: the first component that differs decides. */
  method CompareNumbers(la: array<int>, cu: array<int>) returns (decided: bool, newer: bool)
    requires la.Length == 3 && cu.Length == 3
    ensures decided ==> (newer <==> LexLess(cu[..], la[..])) && la[..] != cu[..]
    ensures !decided ==> la[..] == cu[..]
  {
    for i := 0 to 3
      invariant forall k :: 0 <= k < i ==> la[k] == cu[k]
    {
      if la[i] > cu[i] {
        assert la[..][i] != cu[..][i];
        return true, true;
      }
      if la[i] < cu[i] {
        assert la[..][i] != cu[..][i];
        return true, false;
      }
    }
    return false, false;
  }

  lemma NewerIff(latest: string, current: string, x: seq<int>, y: seq<int>)
    requires Parse(latest).Some? && Parse(current).Some?
    requires x == Parse(latest).value.Components() && y == Parse(current).value.Components()
    ensures Newer(latest, current) <==>
              LexLess(y, x) || (x == y && PreRelease(latest) == "" && PreRelease(current) != "")
  {
    assert x == y <==> x[0] == y[0] && x[1] == y[1] && x[2] == y[2];
  }

  method IsNewer(latest: string, current: string) returns (newer: bool)
    ensures newer <==> Newer(latest, current)
  {
    var la, lOK := ParseVersion(latest);
    var cu, cOK := ParseVersion(current);
    if !lOK || !cOK {
      return TrimSpace(latest) != "" && latest != current;
    }
    NewerIff(latest, current, la[..], cu[..]);
    var decided, byNumbers := CompareNumbers(la, cu);
    if decided {
      return byNumbers;
    }
    return PreRelease(latest) == "" && PreRelease(current) != "";
  }

  /** An update chain of versions that parse never comes back: its end is newer
      than its start, and its start is not newer than its end. */
  lemma {:induction false} NoUpdateCycle(chain: seq<string>)
    requires |chain| >= 2 && forall i :: 0 <= i < |chain| ==> Parse(chain[i]).Some?
    requires forall i :: 0 < i < |chain| ==> Newer(chain[i], chain[i - 1])
    ensures Newer(chain[|chain| - 1], chain[0]) && !Newer(chain[0], chain[|chain| - 1])
  {
    if |chain| > 2 {
      NoUpdateCycle(chain[..|chain| - 1]);
      assert Newer(chain[|chain| - 1], chain[|chain| - 2]);
    }
  }

  /** Among versions that parse, "neither is newer" is an equivalence that
      IsNewer respects: with the lemma above, a strict weak order. */
  lemma TiesAreEqualRanks(a: string, b: string, c: string)
    requires Parse(a).Some? && Parse(b).Some? && Parse(c).Some?
    ensures !Newer(a, b) && !Newer(b, a) <==> RankOf(a) == RankOf(b)
    ensures !Newer(a, b) && !Newer(b, a) ==> (Newer(a, c) <==> Newer(b, c)) && (Newer(c, a) <==> Newer(c, b))
  {}

  /** Over all strings, two are each newer than the other exactly when one of
      them does not parse, neither is blank, and they differ. */
  lemma MutuallyNewerIff(a: string, b: string)
    ensures Newer(a, b) && Newer(b, a) <==>
              && (Parse(a).None? || Parse(b).None?)
              && TrimSpace(a) != "" && TrimSpace(b) != "" && a != b
  {}

  // ---------- printing ----------

  function Digit(d: nat): char
    requires d < 10
  {
    "0123456789"[d]
  }

  function Print(n: nat): string {
    if n < 10 then [Digit(n)] else Print(n / 10) + [Digit(n % 10)]
  }

  lemma {:induction false} PrintIsValue(n: nat)
    ensures AllDigits(Print(n)) && Value(Print(n)) == n
  {
    if n >= 10 {
      PrintIsValue(n / 10);
      assert Print(n)[..|Print(n)| - 1] == Print(n / 10);
    } else {
      assert Print(n)[..0] == "";
    }
  }

  lemma AtoiPrint(n: nat)
    ensures Atoi(Print(n)) == if n <= MAX_INT then Some(n) else None
  {
    PrintIsValue(n);
    assert IsDigit(Print(n)[0]);
  }

  function Zeros(k: nat): string {
    seq(k, _ => '0')
  }

  lemma ValueOneMore(front: string, d: char)
    requires (forall i :: 0 <= i < |front| ==> IsDigit(front[i])) && IsDigit(d)
    ensures Value(front + [d]) == 10 * Value(front) + DigitValue(d)
  {
    assert (front + [d])[..|front|] == front;
  }

  function Padded(k: nat, n: nat): string {
    Zeros(k) + Print(n)
  }

  lemma DigitOfChar(d: char)
    requires IsDigit(d)
    ensures Digit(DigitValue(d)) == d && Print(DigitValue(d)) == [d]
  {}

  lemma PrintOneMore(n: nat, d: nat)
    requires n > 0 && d < 10
    ensures Print(10 * n + d) == Print(n) + [Digit(d)]
  {
    assert (10 * n + d) / 10 == n && (10 * n + d) % 10 == d;
  }

  lemma PrintedLonger(front: string, n: nat, k: nat, d: char)
    requires front == Zeros(k) + Print(n) && IsDigit(d)
    ensures front + [d] == (if n == 0 then Zeros(k + 1) else Zeros(k)) + Print(10 * n + DigitValue(d))
  {
    DigitOfChar(d);
    if n == 0 {
      assert front == Zeros(k + 1);
    } else {
      PrintOneMore(n, DigitValue(d));
      assert front + [d] == Zeros(k) + (Print(n) + [d]);
    }
  }

  /** `padded` prints numbers with zeros in front, digit by digit. */
  ghost predicate GrowsByDigits(padded: (nat, nat) -> string) {
    && (forall d :: IsDigit(d) ==> padded(0, DigitValue(d)) == [d])
    && (forall k: nat, n: nat, d :: IsDigit(d) ==>
          padded(k, n) + [d] == padded(if n == 0 then k + 1 else k, 10 * n + DigitValue(d)))
  }

  lemma PaddedGrows()
    ensures GrowsByDigits(Padded)
  {
    forall d | IsDigit(d)
      ensures Padded(0, DigitValue(d)) == [d]
    {
      DigitOfChar(d);
    }
    forall k: nat, n: nat, d | IsDigit(d)
      ensures Padded(k, n) + [d] == Padded(if n == 0 then k + 1 else k, 10 * n + DigitValue(d))
    {
      PrintedLonger(Padded(k, n), n, k, d);
    }
  }

  lemma {:induction false} DigitsGrow(s: string, padded: (nat, nat) -> string) returns (k: nat)
    requires AllDigits(s) && GrowsByDigits(padded)
    ensures s == padded(k, Value(s))
  {
    var front, d := s[..|s| - 1], s[|s| - 1];
    assert s == front + [d];
    ValueOneMore(front, d);
    if front == "" {
      k := 0;
    } else {
      k := DigitsGrow(front, padded);
      k := if Value(front) == 0 then k + 1 else k;
    }
  }

  /** A run of digits is zeros and the printed value. */
  lemma DigitsPrinted(s: string) returns (k: nat)
    requires AllDigits(s)
    ensures s == Zeros(k) + Print(Value(s))
  {
    PaddedGrows();
    k := DigitsGrow(s, Padded);
  }

  lemma {:induction false} ZerosPrinted(k: nat, n: nat)
    ensures AllDigits(Zeros(k) + Print(n)) && Value(Zeros(k) + Print(n)) == n
  {
    PrintIsValue(n);
    ZerosBefore(k, Print(n));
  }

  lemma {:induction false} ZerosBefore(k: nat, s: string)
    requires forall i :: 0 <= i < |s| ==> IsDigit(s[i])
    ensures Value(Zeros(k) + s) == Value(s)
  {
    var t := Zeros(k) + s;
    if s != "" {
      assert t[..|t| - 1] == Zeros(k) + s[..|s| - 1];
      ZerosBefore(k, s[..|s| - 1]);
    } else if k > 0 {
      assert t[..k - 1] == Zeros(k - 1) + "";
      ZerosBefore(k - 1, "");
    }
  }

  /** s is n as people write it: a sign, zeros and the digits. */
  predicate IsNumeral(s: string, sign: string, k: nat, n: int) {
    && s == sign + (Zeros(k) + Print(Abs(n)))
    && (sign == "" || sign == "+" || sign == "-")
    && (n > 0 ==> sign != "-") && (n < 0 ==> sign == "-")
  }

  lemma AtoiOfParts(sign: string, digits: string)
    requires AllDigits(digits) && (sign == "" || sign == "+" || sign == "-")
    ensures var n: int := if sign == "-" then -(Value(digits) as int) else Value(digits);
            Atoi(sign + digits) == if -MAX_INT - 1 <= n <= MAX_INT then Some(n) else None
  {
    assert IsDigit(digits[0]);
    if sign == "" {
      assert sign + digits == digits;
    } else {
      assert (sign + digits)[0] == sign[0] && (sign + digits)[1..] == digits;
    }
  }

  /** Atoi reads exactly the numerals of 64-bit numbers. */
  lemma AtoiIff(s: string, n: int)
    ensures Atoi(s) == Some(n) <==>
              -0x8000_0000_0000_0000 <= n <= 0x7FFF_FFFF_FFFF_FFFF && exists sign, k: nat :: IsNumeral(s, sign, k, n)
  {
    if Atoi(s) == Some(n) {
      var sign, k := ReadIsNumeral(s, n);
    }
    if sign, k: nat :| IsNumeral(s, sign, k, n) {
      NumeralIsRead(s, sign, k, n);
    }
  }

  lemma NumeralIsRead(s: string, sign: string, k: nat, n: int)
    requires IsNumeral(s, sign, k, n)
    ensures Atoi(s) == if -MAX_INT - 1 <= n <= MAX_INT then Some(n) else None
  {
    ZerosPrinted(k, Abs(n));
    AtoiOfParts(sign, Zeros(k) + Print(Abs(n)));
  }

  lemma ReadIsNumeral(s: string, n: int) returns (sign: string, k: nat)
    requires Atoi(s) == Some(n)
    ensures -MAX_INT - 1 <= n <= MAX_INT && IsNumeral(s, sign, k, n)
  {
    var digits;
    sign, digits := SignAndDigits(s);
    AtoiOfParts(sign, digits);
    k := DigitsPrinted(digits);
  }

  lemma SignAndDigits(s: string) returns (sign: string, digits: string)
    requires Atoi(s).Some?
    ensures s == sign + digits && AllDigits(digits) && (sign == "" || sign == "+" || sign == "-")
  {
    sign, digits := "", s;
    if IsMark(s[0]) {
      sign, digits := [s[0]], s[1..];
    }
  }

  function Join(parts: seq<string>): string
    requires parts != []
  {
    if |parts| == 1 then parts[0] else parts[0] + (['.'] + Join(parts[1..]))
  }

  function Printed(ns: seq<nat>): seq<string> {
    seq(|ns|, i requires 0 <= i < |ns| => Print(ns[i]))
  }

  function Dotted(ns: seq<nat>): string
    requires ns != []
  {
    Join(Printed(ns))
  }

  lemma {:induction false} IndexIfAppend(a: string, b: string, f: char -> bool)
    requires forall i :: 0 <= i < |a| ==> !f(a[i])
    ensures IndexIf(a + b, f) == |a| + IndexIf(b, f)
  {
    if a == "" {
      assert a + b == b;
    } else {
      assert (a + b)[1..] == a[1..] + b;
      IndexIfAppend(a[1..], b, f);
    }
  }

  predicate NoDots(s: string) {
    forall i :: 0 <= i < |s| ==> !IsDot(s[i])
  }

  lemma SplitFirst(first: string, rest: string, n: nat)
    requires NoDots(first) && n >= 2
    ensures SplitN(first + (['.'] + rest), n) == [first] + SplitN(rest, n - 1)
  {
    var s := first + (['.'] + rest);
    IndexIfAppend(first, ['.'] + rest, IsDot);
    assert s[..|first|] == first && s[|first| + 1..] == rest;
  }

  lemma SplitLast(first: string, n: nat)
    requires NoDots(first) && n >= 1
    ensures SplitN(first, n) == [first]
  {
    IndexIfAppend(first, "", IsDot);
    assert first + "" == first;
  }

  lemma PrintHasNoDots(n: nat)
    ensures NoDots(Print(n))
  {
    PrintIsValue(n);
    assert forall i :: 0 <= i < |Print(n)| ==> IsDigit(Print(n)[i]);
  }

  lemma SplitJoinedFirst(parts: seq<string>, n: nat)
    requires |parts| >= 2 && n >= 2 && NoDots(parts[0])
    ensures SplitN(Join(parts), n) == [parts[0]] + SplitN(Join(parts[1..]), n - 1)
  {
    SplitFirst(parts[0], Join(parts[1..]), n);
  }

  predicate AllNoDots(parts: seq<string>) {
    forall i :: 0 <= i < |parts| ==> NoDots(parts[i])
  }

  /** Splitting undoes joining, up to n parts. */
  lemma {:induction false} SplitJoined(parts: seq<string>, n: nat)
    requires 1 <= |parts| <= n && AllNoDots(parts)
    ensures SplitN(Join(parts), n) == parts
  {
    if |parts| == 1 {
      SplitLast(parts[0], n);
      assert [parts[0]] == parts;
    } else {
      SplitJoined(parts[1..], n - 1);
      calc {
        SplitN(Join(parts), n);
        { SplitJoinedFirst(parts, n); }
        [parts[0]] + SplitN(Join(parts[1..]), n - 1);
        [parts[0]] + parts[1..];
        parts;
      }
    }
  }

  /** Of more than three parts, the third and later ones stay together. */
  lemma SplitTooMany(parts: seq<string>)
    requires |parts| > 3 && forall i :: 0 <= i < |parts| ==> NoDots(parts[i])
    ensures SplitN(Join(parts), 3) == [parts[0], parts[1], Join(parts[2..])]
  {
    calc {
      SplitN(Join(parts), 3);
      { SplitJoinedFirst(parts, 3); }
      [parts[0]] + SplitN(Join(parts[1..]), 2);
      { SplitJoinedFirst(parts[1..], 2); assert parts[1..][1..] == parts[2..]; }
      [parts[0]] + ([parts[1]] + SplitN(Join(parts[2..]), 1));
      [parts[0], parts[1], Join(parts[2..])];
    }
  }

  /** A number list goes from a digit to a digit, without marks. */
  lemma {:induction false} JoinedChars(parts: seq<string>)
    requires parts != [] && forall i :: 0 <= i < |parts| ==> AllDigits(parts[i])
    ensures var s := Join(parts);
            && s != "" && IsDigit(s[0]) && IsDigit(s[|s| - 1])
            && (forall i :: 0 <= i < |s| ==> !IsMark(s[i]))
            && (|parts| >= 2 ==> '.' in s)
  {
    assert AllDigits(parts[0]);
    if |parts| >= 2 {
      JoinedChars(parts[1..]);
      assert Join(parts)[|parts[0]|] == '.';
    }
  }

  lemma PrintedDigits(ns: seq<nat>)
    ensures forall i :: 0 <= i < |ns| ==> AllDigits(Printed(ns)[i]) && NoDots(Printed(ns)[i])
  {
    forall i | 0 <= i < |ns|
      ensures AllDigits(Printed(ns)[i]) && NoDots(Printed(ns)[i])
    {
      PrintIsValue(ns[i]);
      PrintHasNoDots(ns[i]);
    }
  }

  predicate All(s: string, f: char -> bool) {
    forall i :: 0 <= i < |s| ==> f(s[i])
  }

  lemma {:induction false} TrimLeftSpace(lead: string, s: string, space: char -> bool)
    requires All(lead, space)
    ensures TrimLeft(lead + s, space) == TrimLeft(s, space)
  {
    if lead == "" {
      assert lead + s == s;
    } else {
      assert (lead + s)[1..] == lead[1..] + s;
      TrimLeftSpace(lead[1..], s, space);
    }
  }

  lemma {:induction false} TrimRightAfter(s: string, tail: string, space: char -> bool)
    requires s != "" && !space(s[|s| - 1])
    ensures TrimRight(s + tail, space) == s + TrimRight(tail, space)
  {
    if tail == "" {
      assert s + tail == s;
    } else if space(tail[|tail| - 1]) {
      assert (s + tail)[..|s + tail| - 1] == s + tail[..|tail| - 1];
      TrimRightAfter(s, tail[..|tail| - 1], space);
    }
  }

  lemma {:induction false} TrimRightTwice(s: string, space: char -> bool)
    ensures TrimRight(TrimRight(s, space), space) == TrimRight(s, space)
  {
    if s != "" && space(s[|s| - 1]) {
      TrimRightTwice(s[..|s| - 1], space);
    }
  }

  lemma {:induction false} TrimRightStart(tail: string, space: char -> bool, mark: char -> bool)
    requires All(tail, space) || mark(tail[0])
    requires forall c :: !(space(c) && mark(c))
    ensures TrimRight(tail, space) == "" || mark(TrimRight(tail, space)[0])
  {
    if tail != "" && space(tail[|tail| - 1]) {
      TrimRightStart(tail[..|tail| - 1], space, mark);
    }
  }

  lemma TrimAround(text: string, lead: string, s: string, tail: string, space: char -> bool)
    requires text == lead + s + tail && All(lead, space) && s != "" && !space(s[0]) && !space(s[|s| - 1])
    ensures Trim(text, space) == s + TrimRight(tail, space)
  {
    assert text == lead + (s + tail);
    TrimLeftSpace(lead, s + tail, space);
    TrimRightAfter(s, tail, space);
  }

  /** Text around the numbers: white space, an optional v, white space; then
      white space or a suffix. */
  predicate IsTail(tail: string) {
    All(tail, IsSpace) || tail[0] == '-' || tail[0] == '+'
  }

  /** A suffix that says something. */
  predicate HasSuffix(tail: string) {
    tail != "" && (tail[0] == '-' || tail[0] == '+') && !All(tail[1..], IsSpace)
  }

  /** Normalizing finds d and what is left of the tail. */
  lemma NormalizeAround(text: string, lead: string, d: string, tail: string, space: char -> bool)
    requires text == lead + d + tail && All(lead, space)
    requires d != "" && !space(d[0]) && !space(d[|d| - 1]) && d[0] != 'v'
    ensures Normalize(text, space) == d + TrimRight(tail, space)
  {
    var t := TrimRight(tail, space);
    TrimAround(text, lead, d, tail, space);
    TrimRightTwice(tail, space);
    TrimAround(d + t, "", d, t, space);
  }

  lemma NormalizeAfterV(text: string, lead: string, gap: string, d: string, tail: string, space: char -> bool)
    requires text == lead + (['v'] + gap + d) + tail && All(lead, space) && All(gap, space) && !space('v')
    requires d != "" && !space(d[0]) && !space(d[|d| - 1])
    ensures Normalize(text, space) == d + TrimRight(tail, space)
  {
    var t := TrimRight(tail, space);
    TrimAround(text, lead, ['v'] + gap + d, tail, space);
    TrimRightTwice(tail, space);
    assert TrimV(['v'] + gap + d + t) == gap + d + t;
    TrimAround(gap + d + t, gap, d, t, space);
  }

  lemma PrintedParts(ns: seq<nat>)
    requires 1 <= |ns| <= 3
    ensures FromParts(Printed(ns)) ==
              if forall i :: 0 <= i < |ns| ==> ns[i] <= MAX_INT
              then Some(Version(ns[0], if |ns| > 1 then ns[1] else 0, if |ns| > 2 then ns[2] else 0))
              else None
  {
    forall i | 0 <= i < |ns|
      ensures Atoi(Printed(ns)[i]) == if ns[i] <= MAX_INT then Some(ns[i]) else None
    {
      AtoiPrint(ns[i]);
    }
    if i :| 0 <= i < |ns| && ns[i] > MAX_INT {
      assert Atoi(Printed(ns)[i]).None?;
    }
  }

  /** parseVersion inverts printing: a dotted list of numbers, with or without v,
      suffix and surrounding white space, parses exactly if it has at most three
      numbers and each fits an int; missing ones count as zero. */
  lemma ParsesPrintedIff(ns: seq<nat>, lead: string, v: bool, gap: string, tail: string)
    requires ns != [] && All(lead, IsSpace) && All(gap, IsSpace) && IsTail(tail)
    ensures Parse(lead + (if v then "v" else "") + gap + Dotted(ns) + tail) ==
              if |ns| <= 3 && forall i :: 0 <= i < |ns| ==> ns[i] <= MAX_INT
              then Some(Version(ns[0], if |ns| > 1 then ns[1] else 0, if |ns| > 2 then ns[2] else 0))
              else None
  {
    CoreOfPrinted(ns, lead, v, gap, tail);
    PrintedDigits(ns);
    var parts := Printed(ns);
    if |ns| <= 3 {
      SplitJoined(parts, 3);
      PrintedParts(ns);
    } else {
      SplitTooMany(parts);
      JoinIsNoNumber(parts[2..]);
      assert SplitN(Dotted(ns), 3)[2] == Join(parts[2..]);
    }
  }

  /** What counts as the numbers of a printed version. */
  lemma CoreOfPrinted(ns: seq<nat>, lead: string, v: bool, gap: string, tail: string)
    requires ns != [] && All(lead, IsSpace) && All(gap, IsSpace) && IsTail(tail)
    ensures Core(lead + (if v then "v" else "") + gap + Dotted(ns) + tail) == Dotted(ns)
    ensures PreRelease(lead + (if v then "v" else "") + gap + Dotted(ns) + tail) == "" <==> !HasSuffix(tail)
  {
    var d := Dotted(ns);
    PrintedDigits(ns);
    JoinedChars(Printed(ns));
    CoreAround(lead, v, gap, d, tail);
  }

  lemma NormalizedAround(lead: string, v: bool, gap: string, d: string, tail: string)
    requires All(lead, IsSpace) && All(gap, IsSpace)
    requires d != "" && IsDigit(d[0]) && IsDigit(d[|d| - 1])
    ensures Normalized(lead + (if v then "v" else "") + gap + d + tail) == d + TrimRight(tail, IsSpace)
  {
    var text := lead + (if v then "v" else "") + gap + d + tail;
    if v {
      assert text == lead + (['v'] + gap + d) + tail;
      NormalizeAfterV(text, lead, gap, d, tail, IsSpace);
    } else {
      assert text == (lead + gap) + d + tail;
      NormalizeAround(text, lead + gap, d, tail, IsSpace);
    }
  }

  lemma CoreAround(lead: string, v: bool, gap: string, d: string, tail: string)
    requires All(lead, IsSpace) && All(gap, IsSpace) && IsTail(tail)
    requires d != "" && IsDigit(d[0]) && IsDigit(d[|d| - 1]) && forall i :: 0 <= i < |d| ==> !IsMark(d[i])
    ensures Core(lead + (if v then "v" else "") + gap + d + tail) == d
    ensures PreRelease(lead + (if v then "v" else "") + gap + d + tail) == "" <==> !HasSuffix(tail)
  {
    var rest := TrimRight(tail, IsSpace);
    NormalizedAround(lead, v, gap, d, tail);
    TrimRightStart(tail, IsSpace, IsMark);
    CutAtMark(d, rest, IsMark);
    SuffixLeft(tail);
    assert rest != "" ==> IndexIf(rest, IsMark) == 0;
    IndexIfAppend(d, rest, IsMark);
    assert rest != "" ==> (d + rest)[|d| + 1..] == rest[1..];
  }

  /** What trimming leaves of a tail. */
  lemma SuffixLeft(tail: string)
    requires IsTail(tail)
    ensures var rest := TrimRight(tail, IsSpace); rest == "" || rest[1..] == "" <==> !HasSuffix(tail)
  {
    if All(tail, IsSpace) {
      TrimRightBlank(tail, IsSpace);
    } else {
      TrimRightAfter([tail[0]], tail[1..], IsSpace);
      assert [tail[0]] + tail[1..] == tail;
      TrimRightBlank(tail[1..], IsSpace);
    }
  }

  lemma {:induction false} TrimRightBlank(s: string, space: char -> bool)
    ensures TrimRight(s, space) == "" <==> All(s, space)
  {
    if s != "" && space(s[|s| - 1]) {
      TrimRightBlank(s[..|s| - 1], space);
    }
  }

  lemma CutAtMark(d: string, rest: string, mark: char -> bool)
    requires forall i :: 0 <= i < |d| ==> !mark(d[i])
    requires rest == "" || mark(rest[0])
    ensures (d + rest)[..IndexIf(d + rest, mark)] == d
  {
    IndexIfAppend(d, rest, mark);
  }

  lemma JoinIsNoNumber(parts: seq<string>)
    requires |parts| >= 2 && forall i :: 0 <= i < |parts| ==> AllDigits(parts[i])
    ensures Atoi(Join(parts)).None?
  {
    JoinedChars(parts);
    var i :| 0 <= i < |Join(parts)| && Join(parts)[i] == '.';
    assert !IsDigit(Join(parts)[i]);
  }

  /** A version as people write it: up to three numbers that fit an int, with or
      without v, white space and a suffix. */
  datatype Written = Written(lead: string, v: bool, gap: string, ns: seq<nat>, tail: string)
  {
    predicate Valid() {
      && All(lead, IsSpace) && All(gap, IsSpace) && IsTail(tail)
      && 1 <= |ns| <= 3 && forall i :: 0 <= i < |ns| ==> ns[i] <= MAX_INT
    }

    function Text(): string
      requires Valid()
    {
      lead + (if v then "v" else "") + gap + Dotted(ns) + tail
    }

    function Number(i: nat): nat {
      if i < |ns| then ns[i] else 0
    }
  }

  /** Of two written versions a is newer than b exactly if its first number that
      differs is greater, missing ones counting as zero, or none differs and b
      alone has a suffix. */
  lemma NewerWrittenIff(a: Written, b: Written)
    requires a.Valid() && b.Valid()
    ensures Newer(a.Text(), b.Text()) <==>
            || a.Number(0) > b.Number(0)
            || (a.Number(0) == b.Number(0) && a.Number(1) > b.Number(1))
            || (a.Number(0) == b.Number(0) && a.Number(1) == b.Number(1) && a.Number(2) > b.Number(2))
            || (a.Number(0) == b.Number(0) && a.Number(1) == b.Number(1) && a.Number(2) == b.Number(2)
                && !HasSuffix(a.tail) && HasSuffix(b.tail))
  {
    RankOfWritten(a);
    RankOfWritten(b);
  }

  lemma RankOfWritten(a: Written)
    requires a.Valid()
    ensures Parse(a.Text()) == Some(Version(a.Number(0), a.Number(1), a.Number(2)))
    ensures RankOf(a.Text()).release <==> !HasSuffix(a.tail)
  {
    ParsesPrintedIff(a.ns, a.lead, a.v, a.gap, a.tail);
    CoreOfPrinted(a.ns, a.lead, a.v, a.gap, a.tail);
  }

  /** Signs cut the text off, so no component is ever negative. */
  lemma ComponentsNotNegative(v: string)
    requires Parse(v).Some?
    ensures Parse(v).value.major >= 0 && Parse(v).value.minor >= 0 && Parse(v).value.patch >= 0
  {
    NoMarkBefore(Normalized(v), IsMark);
    PartsOf(Core(v), 3);
  }

  lemma {:induction false} NoMarkBefore(s: string, f: char -> bool)
    ensures forall i :: 0 <= i < IndexIf(s, f) ==> !f(s[i])
  {
    if s != "" && !f(s[0]) {
      NoMarkBefore(s[1..], f);
    }
  }

  lemma {:induction false} PartsOf(s: string, n: nat)
    requires forall i :: 0 <= i < |s| ==> !IsMark(s[i])
    ensures forall k, i :: 0 <= k < |SplitN(s, n)| && 0 <= i < |SplitN(s, n)[k]| ==> !IsMark(SplitN(s, n)[k][i])
  {
    var i := IndexIf(s, IsDot);
    if n > 1 && i < |s| {
      PartsOf(s[i + 1..], n - 1);
    }
  }
}
