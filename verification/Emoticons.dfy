/** The emoticon tokenizer (native_client/internal/ui/emoticon_tokens.go and
    bubbles.go). The elements of a string stand for bytes.

    The regular expression is a list of quoted keys, put in descending order of
    quoted length by an exchange sort, and matched leftmost-first. It is proved
    to be a leftmost longest-match tokenizer for the key set. */
module Emoticons {

  import opened Prelude

  // ---------- regexp.QuoteMeta ----------

  const ESCAPE := '\\'

  predicate IsSpecial(c: char) {
    c in "\\.+*?()|[]{}^$"
  }

  function QuoteChar(c: char): string {
    if IsSpecial(c) then [ESCAPE, c] else [c]
  }

  function Quote(k: string): string {
    if k == "" then "" else QuoteChar(k[0]) + Quote(k[1..])
  }

  lemma {:induction false} QuoteAppend(a: string, b: string)
    ensures Quote(a + b) == Quote(a) + Quote(b)
  {
    if a == "" {
      assert a + b == b;
    } else {
      assert (a + b)[1..] == a[1..] + b;
      QuoteAppend(a[1..], b);
    }
  }

  lemma {:induction false} QuoteNotShorter(k: string)
    ensures |Quote(k)| >= |k|
  {
    if k != "" {
      QuoteNotShorter(k[1..]);
    }
  }

  /** Quoting preserves the proper-prefix order, and so its lengths. */
  lemma QuotePreservesPrefix(a: string, b: string)
    requires a < b
    ensures Quote(a) < Quote(b) && |Quote(a)| < |Quote(b)|
  {
    var rest := b[|a|..];
    assert b == a + rest;
    QuoteAppend(a, rest);
    QuoteNotShorter(rest);
  }

  // ---------- the regular expression ----------

  /** How much of the text the pattern consumes at its front: a backslash makes
      the next character literal, other characters stand for themselves. */
  function MatchLiteral(pattern: string, text: string): Option<nat>
    decreases |pattern|
  {
    if pattern == "" then Some(0)
    else
      var escaped := pattern[0] == ESCAPE && |pattern| >= 2;
      var c := if escaped then pattern[1] else pattern[0];
      if text == "" || text[0] != c then None
      else
        match MatchLiteral(pattern[if escaped then 2 else 1..], text[1..])
        case None => None
        case Some(n) => Some(n + 1)
  }

  /** A quoted key matches exactly the key. */
  lemma {:induction false} QuotedMatchesKey(k: string, text: string)
    ensures MatchLiteral(Quote(k), text) == if k <= text then Some(|k|) else None
  {
    if k != "" {
      var q := Quote(k);
      assert q[|QuoteChar(k[0])|..] == Quote(k[1..]);
      if text != "" {
        QuotedMatchesKey(k[1..], text[1..]);
        assert k <= text <==> k[0] == text[0] && k[1..] <= text[1..];
      }
    }
  }

  /** Alternation: the first alternative that matches at the front of the text. */
  function FirstMatch(alts: seq<string>, text: string): Option<nat> {
    if alts == [] then None
    else if MatchLiteral(alts[0], text).Some? then MatchLiteral(alts[0], text)
    else FirstMatch(alts[1..], text)
  }

  /** The next match at or after position p. */
  function FindNext(alts: seq<string>, text: string, p: nat): Option<(nat, nat)>
    requires p <= |text|
    decreases |text| - p
  {
    match FirstMatch(alts, text[p..])
    case Some(n) => Some((p, p + n))
    case None => if p == |text| then None else FindNext(alts, text, p + 1)
  }

  // ---------- the keys and their order ----------

  predicate Descending(alts: seq<string>) {
    forall i, j :: 0 <= i < j < |alts| ==> |alts[i]| >= |alts[j]|
  }

  /** `alts` are the quoted keys, longest first, in any order among equals. */
  ghost predicate IsPattern(keys: set<string>, alts: seq<string>) {
    && Descending(alts)
    && (forall k :: k in keys ==> Quote(k) in alts)
    && (forall q :: q in alts ==> exists k :: k in keys && Quote(k) == q)
  }

  /** The exchange sort of the initializer. */
  method SortByLength(a: array<string>)
    modifies a
    ensures Descending(a[..])
    ensures multiset(a[..]) == old(multiset(a[..]))
  {
    for i := 0 to a.Length
      invariant DescendingUpTo(a[..], i)
      invariant multiset(a[..]) == old(multiset(a[..]))
    {
      ghost var before := a[..];
      MoveLongest(a, i);
      LongestMoved(before, a[..], i);
    }
  }

  ghost predicate DescendingUpTo(s: seq<string>, i: nat) {
    forall x, y :: 0 <= x < i && x < y < |s| ==> |s[x]| >= |s[y]|
  }

  lemma LongestMoved(s: seq<string>, t: seq<string>, i: nat)
    requires i < |s| == |t| && DescendingUpTo(s, i)
    requires t[..i] == s[..i] && multiset(t[i..]) == multiset(s[i..])
    requires forall y :: i < y < |t| ==> |t[i]| >= |t[y]|
    ensures DescendingUpTo(t, i + 1) && multiset(t) == multiset(s)
  {
    forall x, y | 0 <= x < i && i <= y < |t|
      ensures |t[x]| >= |t[y]|
    {
      assert t[x] == t[..i][x] == s[x];
      assert t[i..][y - i] in multiset(t[i..]);
      assert t[y] in s[i..];
      var z :| 0 <= z < |s[i..]| && s[i..][z] == t[y];
      assert s[i + z] == t[y];
    }
    forall x, y | 0 <= x < y < i
      ensures |t[x]| >= |t[y]|
    {
      assert t[x] == t[..i][x] == s[x] && t[y] == t[..i][y] == s[y];
    }
    assert s == s[..i] + s[i..] && t == t[..i] + t[i..];
  }

  /** The inner loop: brings a longest of the elements from i on to index i. */
  method MoveLongest(a: array<string>, i: nat)
    requires i < a.Length
    modifies a
    ensures a[..i] == old(a[..i]) && multiset(a[i..]) == old(multiset(a[i..]))
    ensures forall y :: i < y < a.Length ==> |a[i]| >= |a[y]|
  {
    for j := i + 1 to a.Length
      invariant a[..i] == old(a[..i]) && multiset(a[i..]) == old(multiset(a[i..]))
      invariant forall y :: i < y < j ==> |a[i]| >= |a[y]|
    {
      if |a[j]| > |a[i]| {
        ghost var before := a[..];
        a[i], a[j] := a[j], a[i];
        Swapped(before, a[..], i, j);
      }
    }
  }

  lemma Swapped(s: seq<string>, t: seq<string>, i: nat, j: nat)
    requires i < j < |s| && t == s[i := s[j]][j := s[i]]
    ensures t[..i] == s[..i] && multiset(t[i..]) == multiset(s[i..])
  {
    assert t[i..] == s[i..][0 := s[j]][j - i := s[i]];
  }

  /** The initializer: quotes the keys in map iteration order and sorts them. */
  method BuildPattern(keys: set<string>) returns (alts: seq<string>)
    ensures IsPattern(keys, alts)
  {
    var quoted: seq<string> := [];
    var todo := keys;
    while todo != {}
      invariant todo <= keys
      invariant forall k :: k in keys - todo ==> Quote(k) in quoted
      invariant forall q :: q in quoted ==> exists k :: k in keys && Quote(k) == q
      decreases todo
    {
      var k :| k in todo;
      quoted := quoted + [Quote(k)];
      todo := todo - {k};
    }
    var a := new string[|quoted|](i requires 0 <= i < |quoted| => quoted[i]);
    assert a[..] == quoted;
    SortByLength(a);
    alts := a[..];
    forall q
      ensures q in alts <==> q in quoted
    {
      assert q in alts <==> q in multiset(alts);
      assert q in quoted <==> q in multiset(quoted);
    }
  }

  // ---------- longest match ----------

  ghost predicate KeyAt(keys: set<string>, text: string) {
    exists k :: k in keys && k <= text
  }

  ghost predicate IsLongestKey(keys: set<string>, text: string, t: string) {
    t in keys && t <= text && forall k :: k in keys && k <= text ==> |k| <= |t|
  }

  /** The first alternative that matches is the longest key: the matching keys
      are prefixes of one another, so quoting keeps their order. */
  lemma FirstMatchIsLongest(keys: set<string>, alts: seq<string>, text: string)
    requires IsPattern(keys, alts)
    ensures FirstMatch(alts, text).None? <==> !KeyAt(keys, text)
    ensures FirstMatch(alts, text).Some? ==>
              var n := FirstMatch(alts, text).value;
              n <= |text| && IsLongestKey(keys, text, text[..n])
  {
    FirstMatchPosition(alts, text);
    forall k | k in keys && k <= text
      ensures FirstMatch(alts, text).Some? && |k| <= FirstMatch(alts, text).value
    {
      var i :| 0 <= i < |alts| && alts[i] == Quote(k);
      QuotedMatchesKey(k, text);
      var f := FirstMatchIndex(alts, text);
      assert alts[f] in alts;
      var best :| best in keys && Quote(best) == alts[f];
      QuotedMatchesKey(best, text);
      if |k| > |best| {
        assert best < k;
        QuotePreservesPrefix(best, k);
        assert false;
      }
    }
    if FirstMatch(alts, text).Some? {
      var f := FirstMatchIndex(alts, text);
      assert alts[f] in alts;
      var best :| best in keys && Quote(best) == alts[f];
      QuotedMatchesKey(best, text);
      assert text[..|best|] == best;
    }
  }

  /** FirstMatch finds the longest key at the front of s, or that there is none. */
  ghost predicate FindsLongestIn(keys: set<string>, alts: seq<string>, s: string) {
    match FirstMatch(alts, s)
    case None => !KeyAt(keys, s)
    case Some(n) => n <= |s| && IsLongestKey(keys, s, s[..n])
  }

  ghost predicate FindsLongest(keys: set<string>, alts: seq<string>) {
    forall s :: FindsLongestIn(keys, alts, s)
  }

  lemma PatternFindsLongest(keys: set<string>, alts: seq<string>)
    requires IsPattern(keys, alts)
    ensures FindsLongest(keys, alts)
  {
    forall s
      ensures FindsLongestIn(keys, alts, s)
    {
      FirstMatchIsLongest(keys, alts, s);
    }
  }

  /** Index of the first alternative that matches, |alts| if none does. */
  function FirstMatchIndex(alts: seq<string>, text: string): (f: nat)
    ensures f <= |alts|
    ensures f < |alts| ==> MatchLiteral(alts[f], text).Some?
    ensures forall i :: 0 <= i < f ==> MatchLiteral(alts[i], text).None?
  {
    if alts == [] then 0
    else if MatchLiteral(alts[0], text).Some? then 0
    else 1 + FirstMatchIndex(alts[1..], text)
  }

  lemma {:induction false} FirstMatchPosition(alts: seq<string>, text: string)
    ensures var f := FirstMatchIndex(alts, text);
            FirstMatch(alts, text) == if f < |alts| then MatchLiteral(alts[f], text) else None
  {
    if alts != [] {
      FirstMatchPosition(alts[1..], text);
    }
  }

  // ---------- segmentation ----------

  datatype Segment = Plain(text: string) | Token(text: string)

  /** A token is the longest key at its place; a plain run is as long as
      possible and no key matches at any position of it. */
  ghost predicate StartsGreedily(keys: set<string>, text: string, s: Segment) {
    && s.text != "" && s.text <= text
    && (match s
        case Token(t) => IsLongestKey(keys, text, t)
        case Plain(t) =>
          && (forall i :: 0 <= i < |t| ==> !KeyAt(keys, text[i..]))
          && (t == text || KeyAt(keys, text[|t|..])))
  }

  /** `segs` splits the whole text greedily. */
  ghost predicate Munches(keys: set<string>, text: string, segs: seq<Segment>)
    decreases |segs|
  {
    if segs == [] then text == ""
    else
      && StartsGreedily(keys, text, segs[0])
      && Munches(keys, text[|segs[0].text|..], segs[1..])
  }

  lemma SameFront(keys: set<string>, text: string, a: Segment, b: Segment)
    requires StartsGreedily(keys, text, a) && StartsGreedily(keys, text, b)
    ensures a == b
  {
    assert text[0..] == text;
    assert a.Token? == b.Token?;
    assert |a.text| == |b.text|;
    assert a.text == text[..|a.text|] && b.text == text[..|b.text|];
  }

  /** There is only one such split, so the result does not depend on the order
      in which the map yields its keys. */
  lemma {:induction false} MunchUnique(keys: set<string>, text: string, a: seq<Segment>, b: seq<Segment>)
    requires Munches(keys, text, a) && Munches(keys, text, b)
    ensures a == b
    decreases |a|
  {
    if a != [] && b != [] {
      SameFront(keys, text, a[0], b[0]);
      MunchUnique(keys, text[|a[0].text|..], a[1..], b[1..]);
      assert a == [a[0]] + a[1..] && b == [b[0]] + b[1..];
    }
  }

  function Join(segs: seq<Segment>): string {
    if segs == [] then "" else segs[0].text + Join(segs[1..])
  }

  lemma {:induction false} MunchCoversText(keys: set<string>, text: string, segs: seq<Segment>)
    requires Munches(keys, text, segs)
    ensures Join(segs) == text
    decreases |segs|
  {
    if segs != [] {
      MunchCoversText(keys, text[|segs[0].text|..], segs[1..]);
    }
  }

  ghost predicate NoKeyIn(keys: set<string>, text: string, from: nat, to: nat)
    requires to <= |text|
  {
    forall i :: from <= i < to ==> !KeyAt(keys, text[i..])
  }

  ghost predicate IsNextMatch(keys: set<string>, text: string, p: nat, s: nat, e: nat) {
    p <= s < e <= |text| && NoKeyIn(keys, text, p, s) && IsLongestKey(keys, text[s..], text[s..e])
  }

  /** FindNext skips exactly the positions where no key matches. */
  lemma {:induction false} FindNextSkips(keys: set<string>, alts: seq<string>, text: string, p: nat)
    requires FindsLongest(keys, alts) && "" !in keys && p <= |text|
    ensures FindNext(alts, text, p).None? ==> NoKeyIn(keys, text, p, |text|)
    ensures FindNext(alts, text, p).Some? ==>
              IsNextMatch(keys, text, p, FindNext(alts, text, p).value.0, FindNext(alts, text, p).value.1)
    decreases |text| - p
  {
    MatchAt(keys, alts, text, p);
    if FirstMatch(alts, text[p..]).None? && p < |text| {
      FindNextSkips(keys, alts, text, p + 1);
      SkipOne(keys, text, p);
    }
  }

  lemma MatchAt(keys: set<string>, alts: seq<string>, text: string, p: nat)
    requires FindsLongest(keys, alts) && "" !in keys && p <= |text|
    ensures FirstMatch(alts, text[p..]).None? ==> !KeyAt(keys, text[p..])
    ensures FirstMatch(alts, text[p..]).Some? ==>
              var n := FirstMatch(alts, text[p..]).value;
              0 < n && p + n <= |text| && IsLongestKey(keys, text[p..], text[p..p + n])
  {
    assert FindsLongestIn(keys, alts, text[p..]);
    if FirstMatch(alts, text[p..]).Some? {
      MatchHere(keys, text, p, FirstMatch(alts, text[p..]).value);
    }
  }

  lemma SkipOne(keys: set<string>, text: string, p: nat)
    requires p < |text| && !KeyAt(keys, text[p..])
    ensures forall s :: p < s <= |text| && NoKeyIn(keys, text, p + 1, s) ==> NoKeyIn(keys, text, p, s)
  {}

  lemma MatchHere(keys: set<string>, text: string, p: nat, n: nat)
    requires "" !in keys && p + n <= |text| && IsLongestKey(keys, text[p..], text[p..][..n])
    ensures n > 0 && IsLongestKey(keys, text[p..], text[p..p + n])
  {
    assert text[p..][..n] == text[p..p + n];
    assert text[p..][..n] != "";
  }

  /** FindAllStringIndex: all matches from position p on. */
  function FindAll(alts: seq<string>, text: string, p: nat): seq<(nat, nat)>
    requires p <= |text|
    decreases |text| - p
  {
    match FindNext(alts, text, p)
    case None => []
    case Some((s, e)) => if p < e <= |text| then [(s, e)] + FindAll(alts, text, e) else []
  }

  predicate InOrder(text: string, p: nat, ms: seq<(nat, nat)>)
    decreases |ms|
  {
    if ms == [] then p <= |text|
    else p <= ms[0].0 <= ms[0].1 <= |text| && InOrder(text, ms[0].1, ms[1..])
  }

  /** The text from p on, cut at the matches. */
  function Segments(text: string, p: nat, ms: seq<(nat, nat)>): seq<Segment>
    requires InOrder(text, p, ms)
    decreases |ms|
  {
    if ms == [] then PlainIf(text, p, |text|)
    else
      var (s, e) := ms[0];
      PlainIf(text, p, s) + ([Token(text[s..e])] + Segments(text, e, ms[1..]))
  }

  lemma {:induction false} SegmentsMunch(keys: set<string>, alts: seq<string>, text: string, p: nat)
    requires FindsLongest(keys, alts) && "" !in keys && p <= |text|
    ensures InOrder(text, p, FindAll(alts, text, p))
    ensures Munches(keys, text[p..], Segments(text, p, FindAll(alts, text, p)))
    decreases |text| - p
  {
    FindNextSkips(keys, alts, text, p);
    match FindNext(alts, text, p)
    case None =>
      PlainRun(keys, text, p, |text|, []);
    case Some((s, e)) =>
      SegmentsMunch(keys, alts, text, e);
      var rest := Segments(text, e, FindAll(alts, text, e));
      TokenRun(keys, text, s, e, rest);
      PlainRun(keys, text, p, s, [Token(text[s..e])] + rest);
      var all := FindAll(alts, text, p);
      assert all[0] == (s, e) && all[1..] == FindAll(alts, text, e);
      assert Segments(text, p, all) == PlainIf(text, p, s) + ([Token(text[s..e])] + rest);
  }

  function PlainIf(text: string, p: nat, s: nat): seq<Segment>
    requires p <= s <= |text|
  {
    if s > p then [Plain(text[p..s])] else []
  }

  lemma TokenRun(keys: set<string>, text: string, s: nat, e: nat, rest: seq<Segment>)
    requires s < e <= |text| && IsLongestKey(keys, text[s..], text[s..e]) && Munches(keys, text[e..], rest)
    ensures Munches(keys, text[s..], [Token(text[s..e])] + rest)
  {
    var t := text[s..e];
    var all := [Token(t)] + rest;
    assert all[0] == Token(t) && all[1..] == rest && text[s..][|t|..] == text[e..];
    assert StartsGreedily(keys, text[s..], all[0]);
  }

  lemma PlainRun(keys: set<string>, text: string, p: nat, s: nat, rest: seq<Segment>)
    requires p <= s <= |text| && Munches(keys, text[s..], rest)
    requires NoKeyIn(keys, text, p, s)
    requires s == |text| || KeyAt(keys, text[s..])
    ensures Munches(keys, text[p..], PlainIf(text, p, s) + rest)
  {
    var t := text[p..s];
    if t == "" {
      assert PlainIf(text, p, s) + rest == rest;
    } else {
      forall i | 0 <= i < |t|
        ensures !KeyAt(keys, text[p..][i..])
      {
        assert text[p..][i..] == text[p + i..];
      }
      assert text[p..][|t|..] == text[s..];
      var all := PlainIf(text, p, s) + rest;
      assert all[0] == Plain(t) && all[1..] == rest;
      assert s == |text| ==> t == text[p..];
    }
  }

  // ---------- parseRichText ----------

  /** A canvas object: an animated emoticon, or a label. */
  datatype Object = Emoji(token: string) | Label(text: string)

  /** NewAnimatedEmoji finds artwork for some tokens only. */
  function Show(hasArt: string -> bool, s: Segment): Object {
    if s.Token? && hasArt(s.text) then Emoji(s.text) else Label(s.text)
  }

  function Render(hasArt: string -> bool, segs: seq<Segment>): (r: seq<Object>)
    ensures |r| == |segs|
    ensures forall i :: 0 <= i < |segs| ==> r[i] == Show(hasArt, segs[i])
  {
    seq(|segs|, i requires 0 <= i < |segs| => Show(hasArt, segs[i]))
  }

  /** The segmentation loop, for any list of matches in order. */
  method CutAtMatches(hasArt: string -> bool, text: string, matches: seq<(nat, nat)>)
    returns (objects: seq<Object>)
    requires InOrder(text, 0, matches)
    ensures objects == Render(hasArt, Segments(text, 0, matches))
    ensures AreObjectsOf(hasArt, Segments(text, 0, matches), objects)
  {
    RenderedAreObjects(hasArt, Segments(text, 0, matches));
    objects := [];
    var pos := 0;
    for i := 0 to |matches|
      invariant pos <= |text| && InOrder(text, pos, matches[i..])
      invariant objects + Shown(hasArt, text, pos, matches[i..]) == Shown(hasArt, text, 0, matches)
    {
      var (start, end) := matches[i];
      ShownStep(hasArt, text, pos, matches[i..], objects);
      assert matches[i..][1..] == matches[i + 1..];
      if start > pos {
        objects := objects + [Label(text[pos..start])];
      }
      objects := objects + [Show(hasArt, Token(text[start..end]))];
      pos := end;
    }
    assert matches[|matches|..] == [];
    ShownEnd(hasArt, text, pos, objects);
    if pos < |text| {
      objects := objects + [Label(text[pos..])];
    }
  }

  /** The objects still to come once the text up to p has been shown. */
  function Shown(hasArt: string -> bool, text: string, p: nat, ms: seq<(nat, nat)>): seq<Object>
    requires InOrder(text, p, ms)
  {
    Render(hasArt, Segments(text, p, ms))
  }

  lemma ShownEnd(hasArt: string -> bool, text: string, p: nat, done: seq<Object>)
    requires p <= |text|
    ensures done + Shown(hasArt, text, p, []) == if p < |text| then done + [Label(text[p..])] else done
  {
    assert text[p..|text|] == text[p..];
  }

  lemma ShownStep(hasArt: string -> bool, text: string, p: nat, ms: seq<(nat, nat)>, done: seq<Object>)
    requires InOrder(text, p, ms) && ms != []
    ensures var (start, end) := ms[0];
            done + Shown(hasArt, text, p, ms)
            == done + (if start > p then [Label(text[p..start])] else [])
               + [Show(hasArt, Token(text[start..end]))] + Shown(hasArt, text, end, ms[1..])
  {
    var (start, end) := ms[0];
    RenderSplit(hasArt, PlainIf(text, p, start), Token(text[start..end]), Segments(text, end, ms[1..]), done);
    RenderPlain(hasArt, text, p, start);
  }

  lemma RenderPlain(hasArt: string -> bool, text: string, p: nat, start: nat)
    requires p <= start <= |text|
    ensures Render(hasArt, PlainIf(text, p, start)) == if start > p then [Label(text[p..start])] else []
  {}

  lemma RenderSplit(hasArt: string -> bool, plain: seq<Segment>, token: Segment, rest: seq<Segment>,
                    done: seq<Object>)
    ensures done + Render(hasArt, plain + ([token] + rest))
            == done + Render(hasArt, plain) + [Show(hasArt, token)] + Render(hasArt, rest)
  {
    assert Render(hasArt, plain + ([token] + rest))
        == Render(hasArt, plain) + ([Show(hasArt, token)] + Render(hasArt, rest));
  }

  /** One object a segment: a token with artwork as an emoticon, everything else
      as a label of its text. */
  ghost predicate AreObjectsOf(hasArt: string -> bool, segs: seq<Segment>, objects: seq<Object>) {
    && |objects| == |segs|
    && forall i :: 0 <= i < |segs| ==>
         match segs[i]
         case Plain(t) => objects[i] == Label(t)
         case Token(t) => objects[i] == (if hasArt(t) then Emoji(t) else Label(t))
  }

  lemma RenderedAreObjects(hasArt: string -> bool, segs: seq<Segment>)
    ensures AreObjectsOf(hasArt, segs, Render(hasArt, segs))
  {
    forall i | 0 <= i < |segs|
      ensures match segs[i]
              case Plain(t) => Render(hasArt, segs)[i] == Label(t)
              case Token(t) => Render(hasArt, segs)[i] == (if hasArt(t) then Emoji(t) else Label(t))
    {
      assert Render(hasArt, segs)[i] == Show(hasArt, segs[i]);
    }
  }

  /** parseRichText: whatever order the pattern lists equally long keys in, the
      objects are those of the one greedy split of the text. */
  method ParseRichText(keys: set<string>, alts: seq<string>, hasArt: string -> bool, text: string)
    returns (objects: seq<Object>)
    requires IsPattern(keys, alts) && "" !in keys
    ensures exists segs :: Munches(keys, text, segs) && Join(segs) == text
                           && if text == "" then objects == [Label("")] else AreObjectsOf(hasArt, segs, objects)
  {
    var matches := FindAll(alts, text, 0);
    PatternFindsLongest(keys, alts);
    SegmentsMunch(keys, alts, text, 0);
    ghost var segs := Segments(text, 0, matches);
    assert text[0..] == text;
    MunchCoversText(keys, text, segs);
    objects := CutAtMatches(hasArt, text, matches);
    RenderedAreObjects(hasArt, segs);
    if |objects| == 0 {
      objects := objects + [Label(text)];
    }
    assert Munches(keys, text, segs);
  }

  /** Two patterns for the same keys cut every text alike. */
  lemma PatternOrderIrrelevant(keys: set<string>, alts: seq<string>, alts': seq<string>, text: string)
    requires IsPattern(keys, alts) && IsPattern(keys, alts') && "" !in keys
    ensures InOrder(text, 0, FindAll(alts, text, 0)) && InOrder(text, 0, FindAll(alts', text, 0))
    ensures Segments(text, 0, FindAll(alts, text, 0)) == Segments(text, 0, FindAll(alts', text, 0))
  {
    PatternFindsLongest(keys, alts);
    PatternFindsLongest(keys, alts');
    SegmentsMunch(keys, alts, text, 0);
    SegmentsMunch(keys, alts', text, 0);
    MunchUnique(keys, text[0..], Segments(text, 0, FindAll(alts, text, 0)), Segments(text, 0, FindAll(alts', text, 0)));
  }
}
