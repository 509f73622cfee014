/**
 Rewriting persisted settings that are kept as lines: in a line that assigns a value to a key the
 key is replaced by exact lookup, and the value by path rewriting and, where it is a name as a
 whole, by that name's replacement, its quotes and the comment behind it staying as they are.
 */
module ConfigRewrite {
  import opened Basics
  import opened PathRewrite
  import opened JsonRewrite
  import opened RewriteExact

  // ---------------------------------------------------------------- characters

  /** Where a text is split into lines. */
  predicate Break(c: char) {
    c == '\n' || c == '\r' || c == '\U{0B}' || c == '\U{0C}' || '\U{1C}' <= c <= '\U{1E}'
    || c == '\U{85}' || c == '\U{2028}' || c == '\U{2029}'
  }

  /** White space of a Unicode pattern. */
  predicate Space(c: char) {
    Break(c) || c == ' ' || c == '\t' || c == '\U{1F}' || c == '\U{A0}' || c == '\U{1680}'
    || '\U{2000}' <= c <= '\U{200A}' || c == '\U{202F}' || c == '\U{205F}' || c == '\U{3000}'
  }

  predicate Quote(c: char) { c == '\'' || c == '"' }

  predicate AllSpace(s: string) { forall i | 0 <= i < |s| :: Space(s[i]) }

  predicate NoBreak(s: string) { forall i | 0 <= i < |s| :: !Break(s[i]) }

  /** At most the last character is a line break. */
  predicate OneLine(s: string) { forall i | 0 <= i < |s| - 1 :: !Break(s[i]) }

  predicate Broken(s: string) { s != "" && Break(s[|s| - 1]) }

  /** How many white space characters a text begins with. */
  function Spaces(s: string): (n: nat)
    ensures n <= |s| && (n < |s| ==> !Space(s[n])) && forall i | 0 <= i < n :: Space(s[i])
  {
    if s == "" || !Space(s[0]) then 0
    else
      assert forall i | 0 < i < |s| :: s[i] == s[1..][i - 1];
      1 + Spaces(s[1..])
  }

  /** How many word characters a text begins with. */
  function WordRun(s: string): (n: nat)
    ensures n <= |s| && (n < |s| ==> !WordChar(s[n])) && forall i | 0 <= i < n :: WordChar(s[i])
  {
    if s == "" || !WordChar(s[0]) then 0
    else
      assert forall i | 0 < i < |s| :: s[i] == s[1..][i - 1];
      1 + WordRun(s[1..])
  }

  // ---------------------------------------------------------------- one value

  /** Nothing but white space and a comment. */
  predicate IsTail(t: string) {
    var k := Spaces(t);
    k == |t| || ((t[k] == '#' || t[k] == ';') && '\n' !in t[k..])
  }

  datatype Frame = Frame(lead: string, quote: string, tail: string)

  function Framed(f: Frame, name: string): string { f.lead + (f.quote + (name + (f.quote + f.tail))) }

  function QuoteAt(s: string): string { if s != "" && Quote(s[0]) then s[..1] else "" }

  /** What stands around the name, if the value is nothing but the name; no name begins with white space or a quote. */
  function FrameOf(w: string, name: string): Option<Frame> {
    var lead := w[..Spaces(w)];
    var quoted := w[|lead|..];
    var quote := QuoteAt(quoted);
    var named := quoted[|quote|..];
    if !(name <= named) then None
    else
      var rest := named[|name|..];
      if quote <= rest && IsTail(rest[|quote|..]) then Some(Frame(lead, quote, rest[|quote|..])) else None
  }

  ghost predicate Fits(f: Frame) {
    AllSpace(f.lead) && IsTail(f.tail) && (f.quote == "" || (|f.quote| == 1 && Quote(f.quote[0])))
  }

  /** A name that can be told from white space and quotes. */
  predicate Bare(name: string) { name != "" && !Space(name[0]) && !Quote(name[0]) }

  lemma FrameFits(w: string, name: string)
    requires FrameOf(w, name).Some?
    ensures Fits(FrameOf(w, name).value) && w == Framed(FrameOf(w, name).value, name)
  {
    var f := FrameOf(w, name).value;
    var quoted := w[|f.lead|..];
    TakenApart(quoted[|f.quote|..], name);
    TakenApart(quoted[|f.quote|..][|name|..], f.quote);
    TakenApart(quoted, f.quote);
    TakenApart(w, f.lead);
  }

  lemma TakenApart(s: string, front: string)
    requires front <= s
    ensures s == front + s[|front|..]
  {
  }

  lemma {:induction false} SpacesOf(lead: string, rest: string)
    requires AllSpace(lead) && (rest == "" || !Space(rest[0]))
    ensures Spaces(lead + rest) == |lead| && (lead + rest)[|lead|..] == rest
  {
    if lead == "" {
      assert lead + rest == rest;
    } else {
      assert (lead + rest)[1..] == lead[1..] + rest;
      SpacesOf(lead[1..], rest);
    }
  }

  lemma QuoteFound(quote: string, named: string)
    requires quote == "" || (|quote| == 1 && Quote(quote[0]))
    requires named != "" && !Quote(named[0]) && !Space(named[0])
    ensures QuoteAt(quote + named) == quote && (quote + named)[|quote|..] == named && !Space((quote + named)[0])
  {
    assert (quote + named)[0] == if quote == "" then named[0] else quote[0];
  }

  lemma Cut(x: string, y: string)
    ensures (x + y)[..|x|] == x && (x + y)[|x|..] == y
  {
  }

  /** Where a frame around a name is cut. */
  lemma FrameCuts(f: Frame, name: string)
    requires Fits(f) && Bare(name)
    ensures Spaces(Framed(f, name)) == |f.lead| && QuoteAt(f.quote + (name + (f.quote + f.tail))) == f.quote
  {
    var named := name + (f.quote + f.tail);
    assert named[0] == name[0];
    QuoteFound(f.quote, named);
    SpacesOf(f.lead, f.quote + named);
  }

  lemma FrameFound(f: Frame, name: string)
    requires Fits(f) && Bare(name)
    ensures FrameOf(Framed(f, name), name) == Some(f)
  {
    FrameCuts(f, name);
    Cut(f.quote, f.tail);
    Cut(name, f.quote + f.tail);
    Cut(f.quote, name + (f.quote + f.tail));
    Cut(f.lead, f.quote + (name + (f.quote + f.tail)));
  }

  /** The frame is found exactly when there is one, and there is no other. */
  lemma FrameIsExact(w: string, name: string, f: Frame)
    requires Bare(name)
    ensures FrameOf(w, name) == Some(f) <==> Fits(f) && w == Framed(f, name)
  {
    if FrameOf(w, name).Some? { FrameFits(w, name); }
    if Fits(f) { FrameFound(f, name); }
  }

  /** The first name that the value consists of is replaced. */
  function ReplaceWhole(pairs: seq<Pair>, w: string): string {
    if pairs == [] then w
    else
      match FrameOf(w, pairs[0].from)
      case Some(f) => Framed(f, pairs[0].to)
      case None => ReplaceWhole(pairs[1..], w)
  }

  function RewriteScalar(pairs: seq<Pair>, value: string): string {
    ReplaceWhole(pairs, RewriteAll(PathPairs(pairs), value))
  }

  method RewriteConfigScalar(value: string, pairs: seq<Pair>) returns (rewritten: string)
    ensures rewritten == RewriteScalar(pairs, value)
  {
    rewritten := RewritePathReferences(value, PathPairs(pairs));
    for i := 0 to |pairs|
      invariant ReplaceWhole(pairs[i..], rewritten) == RewriteScalar(pairs, value)
    {
      assert pairs[i..][0] == pairs[i] && pairs[i..][1..] == pairs[i + 1..];
      var frame := FrameOf(rewritten, pairs[i].from);
      if frame.Some? {
        rewritten := Framed(frame.value, pairs[i].to);
        return;
      }
    }
  }

  // ---------------------------------------------------------------- one line

  datatype Assignment = Assignment(indent: string, key: string, separator: string, value: string, ending: string)

  function Joined(a: Assignment): string { a.indent + (a.key + (a.separator + (a.value + a.ending))) }

  /** The length of the separator that `s` begins with, white space around it included. */
  function Separator(s: string): (n: nat)
    ensures n <= |s|
  {
    var c := Spaces(s);
    if c < |s| && (s[c] == ':' || s[c] == '=') then c + 1 + Spaces(s[c + 1..]) else 0
  }

  /** The length of the line break that `s` ends with. */
  function Ending(s: string): (n: nat)
    ensures n <= |s|
  {
    var n := |s|;
    if n == 0 || s[n - 1] != '\n' then 0
    else if n > 1 && s[n - 2] == '\r' then 2
    else 1
  }

  function ParseLine(line: string): Option<Assignment> {
    var indent := line[..Spaces(line)];
    var keyed := line[|indent|..];
    var key := keyed[..WordRun(keyed)];
    var separated := keyed[|key|..];
    var separator := separated[..Separator(separated)];
    var valued := separated[|separator|..];
    var end := |valued| - Ending(valued);
    if key == "" || separator == "" || '\n' in valued[..end] then None
    else Some(Assignment(indent, key, separator, valued[..end], valued[end..]))
  }

  function Replaced(pairs: seq<Pair>, a: Assignment): Assignment {
    a.(key := RewriteKey(pairs, a.key), value := RewriteScalar(pairs, a.value))
  }

  function RewriteLine(pairs: seq<Pair>, line: string): string {
    match ParseLine(line)
    case Some(a) => Joined(Replaced(pairs, a))
    case None => line
  }

  // ---------------------------------------------------------------- all lines

  /** The first line with its line break. */
  function FirstLine(s: string): (l: string)
    ensures l <= s && (s != "" ==> l != "")
  {
    if s == "" then ""
    else if s[0] == '\r' && |s| > 1 && s[1] == '\n' then s[..2]
    else if Break(s[0]) then s[..1]
    else
      assert s == [s[0]] + s[1..];
      [s[0]] + FirstLine(s[1..])
  }

  function RewriteConfig(pairs: seq<Pair>, s: string): string
    decreases |s|
  {
    if s == "" then ""
    else RewriteLine(pairs, FirstLine(s)) + RewriteConfig(pairs, s[|FirstLine(s)|..])
  }

  method RewriteConfigLine(line: string, pairs: seq<Pair>) returns (rewritten: string)
    ensures rewritten == RewriteLine(pairs, line)
  {
    match ParseLine(line)
    case None =>
      rewritten := line;
    case Some(a) =>
      var value := RewriteConfigScalar(a.value, pairs);
      rewritten := a.indent + (RewriteKey(pairs, a.key) + (a.separator + (value + a.ending)));
  }

  lemma ConfigStep(pairs: seq<Pair>, done: string, s: string)
    requires s != ""
    ensures done + RewriteConfig(pairs, s) == (done + RewriteLine(pairs, FirstLine(s))) + RewriteConfig(pairs, s[|FirstLine(s)|..])
  {
  }

  method RewriteConfigDocument(original: string, pairs: seq<Pair>) returns (rewritten: string)
    ensures rewritten == RewriteConfig(pairs, original)
  {
    rewritten := "";
    var rest := original;
    while rest != ""
      invariant rewritten + RewriteConfig(pairs, rest) == RewriteConfig(pairs, original)
      decreases |rest|
    {
      ConfigStep(pairs, rewritten, rest);
      var line := FirstLine(rest);
      var next := RewriteConfigLine(line, pairs);
      rewritten, rest := rewritten + next, rest[|line|..];
    }
  }

  // ---------------------------------------------------------------- names in settings

  /** Names replaced as a whole are words, and no replacement brings in a line break. */
  ghost predicate SettingNames(pairs: seq<Pair>) {
    && (forall p | p in pairs && !IsPath(p.from) :: AllWord(p.from) && AllWord(p.to) && !IsPath(p.to))
    && (forall p | p in pairs && IsPath(p.from) :: IsPath(p.to) && LastIsWord(p.from) && LastIsWord(p.to))
    && (forall p | p in pairs :: AllWord(p.from) ==> AllWord(p.to))
    && (forall p | p in pairs :: NoBreak(p.from) ==> NoBreak(p.to))
  }

  // ---------------------------------------------------------------- a value rewritten twice

  lemma WholeOfNone(pairs: seq<Pair>, w: string)
    requires forall p | p in pairs :: FrameOf(w, p.from).None?
    ensures ReplaceWhole(pairs, w) == w
  {
    if pairs != [] { WholeOfNone(pairs[1..], w); }
  }

  lemma {:induction false} WholeOfSome(pairs: seq<Pair>, w: string) returns (p: Pair)
    requires exists q :: q in pairs && FrameOf(w, q.from).Some?
    ensures p in pairs && FrameOf(w, p.from).Some? && ReplaceWhole(pairs, w) == Framed(FrameOf(w, p.from).value, p.to)
  {
    if FrameOf(w, pairs[0].from).Some? {
      p := pairs[0];
    } else {
      assert forall q | q in pairs :: q == pairs[0] || q in pairs[1..];
      p := WholeOfSome(pairs[1..], w);
    }
  }

  /** The name inside a frame stands at word boundaries. */
  lemma NameStandsInFrame(f: Frame, name: string)
    requires Fits(f) && name != ""
    ensures StandsIn(name, Framed(f, name))
  {
    var w, i, rest := Framed(f, name), |f.lead + f.quote|, f.quote + f.tail;
    assert w == (f.lead + f.quote) + (name + rest);
    assert w[i..] == name + rest;
    if i > 0 { assert w[i - 1] == (f.lead + f.quote)[i - 1]; }
    BehindName(f);
    assert Matches(i > 0 && WordChar(w[i - 1]), w[i..], name);
  }

  lemma BehindName(f: Frame)
    requires Fits(f)
    ensures var rest := f.quote + f.tail; rest == "" || !WordChar(rest[0])
  {
    var k := Spaces(f.tail);
    assert f.tail != "" && k > 0 ==> f.tail[..k][0] == f.tail[0];
  }

  /** No pair that is matched inside texts has a name left to replace. */
  ghost predicate CleanOf(path: seq<Pair>, w: string) { forall r | r in path :: !StandsIn(r.from, w) }

  lemma RewrittenIsClean(pairs: seq<Pair>, s: string)
    requires Compatible(pairs)
    ensures CleanOf(PathPairs(pairs), RewriteAll(PathPairs(pairs), s))
  {
    var path, w := PathPairs(pairs), RewriteAll(PathPairs(pairs), s);
    FoldIsSimultaneous(path, s);
    forall r | r in path ensures !StandsIn(r.from, w) {
      NothingLeft(path, r, false, s);
      if StandsIn(r.from, w) {
        var i :| 0 <= i < |w| && Matches(i > 0 && WordChar(w[i - 1]), w[i..], r.from);
        MatchAnywhereChanges(r, false, w, i);
      }
    }
  }

  lemma BeginsBehind(front: string, x: string, rest: string, name: string, i: nat)
    requires AllWord(x) && !IsPath(x) && IsPath(name) && forall k | 0 <= k < |front| :: front[k] != '/' && front[k] != '.'
    requires var y := front + (x + rest); i < |y| && Matches(i > 0 && WordChar(y[i - 1]), y[i..], name)
    ensures i >= |front| + |x|
  {
    var y := front + (x + rest);
    assert y[i..][0] == name[0];
  }

  lemma FrontIsNoPath(f: Frame)
    requires Fits(f)
    ensures forall k | 0 <= k < |f.lead + f.quote| :: (f.lead + f.quote)[k] != '/' && (f.lead + f.quote)[k] != '.'
  {
  }

  /** Putting another word into the frame makes no name stand in it. */
  lemma FrameStaysClean(f: Frame, p: Pair, r: Pair)
    requires Fits(f) && AllWord(p.from) && AllWord(p.to) && !IsPath(p.to) && IsPath(r.from)
    requires !StandsIn(r.from, Framed(f, p.from))
    ensures !StandsIn(r.from, Framed(f, p.to))
  {
    var y, front, rest := Framed(f, p.to), f.lead + f.quote, f.quote + f.tail;
    assert y == front + (p.to + rest) && Framed(f, p.from) == front + (p.from + rest);
    if StandsIn(r.from, y) {
      var i :| 0 <= i < |y| && Matches(i > 0 && WordChar(y[i - 1]), y[i..], r.from);
      FrontIsNoPath(f);
      BeginsBehind(front, p.to, rest, r.from, i);
      MatchBehindWord(front, p.to, p.from, rest, r.from, i);
    }
  }

  lemma MatchBehindWord(front: string, x: string, x': string, rest: string, name: string, i: nat)
    requires AllWord(x) && AllWord(x') && |front| + |x| <= i < |front + (x + rest)|
    requires var y := front + (x + rest); Matches(WordChar(y[i - 1]), y[i..], name)
    ensures StandsIn(name, front + (x' + rest))
  {
    var y, w, j := front + (x + rest), front + (x' + rest), i - |x| + |x'|;
    var e := i - |front| - |x|;
    assert y[|front| + |x| - 1] == x[|x| - 1];
    assert y[i..] == rest[e..] && w[j..] == rest[e..];
    assert y[i - 1] == rest[e - 1] && w[j - 1] == rest[e - 1];
    assert Matches(j > 0 && WordChar(w[j - 1]), w[j..], name);
  }

  /** A frame around one word is no frame around another name. */
  lemma OneNameInFrame(f: Frame, word: string, name: string)
    requires Fits(f) && AllWord(word) && Bare(word) && Bare(name) && (AllWord(name) || name[0] != word[0]) && name != word
    ensures FrameOf(Framed(f, word), name).None?
  {
    var y := Framed(f, word);
    if FrameOf(y, name).Some? {
      var g := FrameOf(y, name).value;
      FrameFits(y, name);
      SameFront(f, word, g, name);
      BehindName(f);
      BehindName(g);
      SameWord(word, f.quote + f.tail, name, g.quote + g.tail);
    }
  }

  lemma SameFront(f: Frame, word: string, g: Frame, name: string)
    requires Fits(f) && Fits(g) && Bare(word) && Bare(name) && Framed(f, word) == Framed(g, name)
    ensures word + (f.quote + f.tail) == name + (g.quote + g.tail)
  {
    var y := Framed(f, word);
    var quoted, quoted' := f.quote + (word + (f.quote + f.tail)), g.quote + (name + (g.quote + g.tail));
    assert quoted[0] == if f.quote == "" then word[0] else f.quote[0];
    assert quoted'[0] == if g.quote == "" then name[0] else g.quote[0];
    SpacesOf(f.lead, quoted);
    SpacesOf(g.lead, quoted');
    assert quoted == quoted';
    assert quoted[|f.quote|..] == word + (f.quote + f.tail) && quoted'[|g.quote|..] == name + (g.quote + g.tail);
  }

  lemma SameWord(x: string, a: string, y: string, b: string)
    requires AllWord(x) && y != "" && x + a == y + b && (AllWord(y) || y[0] != x[0])
    requires (a == "" || !WordChar(a[0])) && (b == "" || !WordChar(b[0]))
    ensures x == y
  {
    var s := x + a;
    assert s[0] == x[0] && s[0] == y[0];
    assert forall i | 0 <= i < |x| :: s[i] == x[i];
    assert forall i | 0 <= i < |y| :: s[i] == y[i];
    assert (a != "" ==> s[|x|] == a[0]) && (b != "" ==> s[|y|] == b[0]);
    assert x == s[..|x|] && y == s[..|y|];
  }

  lemma NamesAreBare(pairs: seq<Pair>, p: Pair)
    requires SettingNames(pairs) && p in pairs && p.from != "" && p.to != ""
    ensures Bare(p.from) && Bare(p.to)
  {
    assert AllWord(p.from) ==> WordChar(p.from[0]);
    assert AllWord(p.to) ==> WordChar(p.to[0]);
  }

  lemma WholeSettles(pairs: seq<Pair>, f: Frame, p: Pair, q: Pair)
    requires Compatible(pairs) && SettingNames(pairs) && p in pairs && q in pairs && !IsPath(p.from) && Fits(f)
    ensures FrameOf(Framed(f, p.to), q.from).None?
  {
    NamesAreBare(pairs, p);
    NamesAreBare(pairs, q);
    OneNameInFrame(f, p.to, q.from);
  }

  /** A value that has been rewritten stays as it is. */
  lemma ScalarSettles(pairs: seq<Pair>, value: string)
    requires Compatible(pairs) && SettingNames(pairs)
    ensures RewriteScalar(pairs, RewriteScalar(pairs, value)) == RewriteScalar(pairs, value)
  {
    var path, w := PathPairs(pairs), RewriteAll(PathPairs(pairs), value);
    RewrittenIsClean(pairs, value);
    CleanIsKept(path, w);
    if exists q :: q in pairs && FrameOf(w, q.from).Some? {
      var p := WholeOfSome(pairs, w);
      WholeAgain(pairs, w, p);
    } else {
      WholeOfNone(pairs, w);
    }
  }

  lemma WholeAgain(pairs: seq<Pair>, w: string, p: Pair)
    requires Compatible(pairs) && SettingNames(pairs) && CleanOf(PathPairs(pairs), w)
    requires p in pairs && FrameOf(w, p.from).Some?
    ensures var y := Framed(FrameOf(w, p.from).value, p.to); RewriteScalar(pairs, y) == y
  {
    var path, f := PathPairs(pairs), FrameOf(w, p.from).value;
    var y := Framed(f, p.to);
    FrameFits(w, p.from);
    NameStandsInFrame(f, p.from);
    assert p !in path;
    forall r | r in path ensures !StandsIn(r.from, y) { FrameStaysClean(f, p, r); }
    CleanIsKept(path, y);
    forall q | q in pairs ensures FrameOf(y, q.from).None? { WholeSettles(pairs, f, p, q); }
    WholeOfNone(pairs, y);
  }

  // ---------------------------------------------------------------- a line rewritten twice

  lemma WordRunOf(word: string, rest: string)
    requires (forall i | 0 <= i < |word| :: WordChar(word[i])) && (rest == "" || !WordChar(rest[0]))
    ensures WordRun(word + rest) == |word| && (word + rest)[|word|..] == rest
  {
    var s, n := word + rest, WordRun(word + rest);
    assert forall i | 0 <= i < |word| :: s[i] == word[i];
    assert |s| > |word| ==> s[|word|] == rest[0];
  }

  lemma TakenAt(s: string, n: nat)
    requires n <= |s|
    ensures s == s[..n] + s[n..]
  {
  }

  lemma ParseGives(line: string)
    requires ParseLine(line).Some?
    ensures Joined(ParseLine(line).value) == line
  {
    var keyed := line[Spaces(line)..];
    var separated := keyed[WordRun(keyed)..];
    var valued := separated[Separator(separated)..];
    TakenAt(line, Spaces(line));
    TakenAt(keyed, WordRun(keyed));
    TakenAt(separated, Separator(separated));
    TakenAt(valued, |valued| - Ending(valued));
  }

  /** A separator: a sign with white space around it. */
  lemma SeparatorOf(before: string, sign: char, after: string, rest: string)
    requires AllSpace(before) && AllSpace(after) && (sign == ':' || sign == '=') && (rest == "" || !Space(rest[0]))
    ensures Separator(before + ([sign] + (after + rest))) == |before| + 1 + |after|
  {
    var signed := [sign] + (after + rest);
    SpacesOf(before, signed);
    SpacesOf(after, rest);
    assert signed[1..] == after + rest;
    assert (before + signed)[|before| + 1..] == signed[1..];
  }

  lemma SeparatorParts(separator: string, rest: string) returns (before: string, sign: char, after: string)
    requires separator != "" && Separator(separator + rest) == |separator|
    ensures AllSpace(before) && AllSpace(after) && (sign == ':' || sign == '=') && separator == before + ([sign] + after)
  {
    var s, c := separator + rest, Spaces(separator + rest);
    before, sign, after := separator[..c], separator[c], separator[c + 1..];
    assert s[c] == separator[c];
    assert forall i | 0 <= i < c :: separator[i] == s[i];
    assert forall i | 0 <= i < |after| :: after[i] == s[c + 1..][i];
  }

  lemma SeparatorStays(separator: string, rest: string, rest': string)
    requires separator != "" && Separator(separator + rest) == |separator|
    requires rest' == "" || !Space(rest'[0])
    ensures Separator(separator + rest') == |separator|
  {
    var before, sign, after := SeparatorParts(separator, rest);
    SeparatorOf(before, sign, after, rest');
    assert separator + rest' == before + ([sign] + (after + rest'));
  }

  lemma SeparatorEnds(s: string)
    requires Separator(s) > 0
    ensures var rest := s[Separator(s)..]; rest == "" || !Space(rest[0])
  {
    var c := Spaces(s);
    assert s[c + 1..][Spaces(s[c + 1..])..] == s[Separator(s)..];
  }

  lemma WordIsNoSpace(c: char)
    requires WordChar(c)
    ensures !Space(c) && !Quote(c) && c != ':' && c != '='
  {
  }

  lemma EndingStays(value: string, ending: string)
    requires '\n' !in value && '\r' !in value && (ending == "" || ending == "\n")
    ensures Ending(value + ending) == |ending|
  {
    var s := value + ending;
    if ending == "" {
      assert s == value;
    } else {
      assert s[|s| - 1] == '\n' && (|s| > 1 ==> s[|s| - 2] == value[|s| - 2]);
    }
  }

  /** What a parsed line is made of. */
  ghost predicate Parsed(a: Assignment) {
    && AllSpace(a.indent) && AllWord(a.key) && a.separator != ""
    && '\n' !in a.value && '\r' !in a.value && (a.ending == "" || a.ending == "\n")
    && (a.value + a.ending == "" || !Space((a.value + a.ending)[0]))
    && Separator(a.separator + (a.value + a.ending)) == |a.separator|
  }

  lemma NotInParts(c: char, x: string, y: string)
    requires c !in x + y
    ensures c !in x && c !in y
  {
    assert forall i | 0 <= i < |x| :: (x + y)[i] == x[i];
    assert forall i | 0 <= i < |y| :: (x + y)[|x| + i] == y[i];
  }

  lemma NotInValue(a: Assignment)
    requires '\r' !in Joined(a)
    ensures '\r' !in a.value && '\r' !in a.value + a.ending
  {
    NotInParts('\r', a.indent, a.key + (a.separator + (a.value + a.ending)));
    NotInParts('\r', a.key, a.separator + (a.value + a.ending));
    NotInParts('\r', a.separator, a.value + a.ending);
    NotInParts('\r', a.value, a.ending);
  }

  lemma KeyIsWord(keyed: string)
    requires WordRun(keyed) > 0
    ensures AllWord(keyed[..WordRun(keyed)])
  {
  }

  lemma PartsAreParsed(line: string)
    requires ParseLine(line).Some? && '\r' !in line
    ensures Parsed(ParseLine(line).value)
  {
    var a := ParseLine(line).value;
    var keyed := line[Spaces(line)..];
    var separated := keyed[WordRun(keyed)..];
    var valued := separated[Separator(separated)..];
    ParseGives(line);
    NotInValue(a);
    KeyIsWord(keyed);
    TakenAt(separated, Separator(separated));
    TakenAt(valued, |valued| - Ending(valued));
    SeparatorEnds(separated);
    EndingIs(valued);
  }

  lemma EndingIs(s: string)
    requires '\r' !in s
    ensures var e := s[|s| - Ending(s)..]; e == "" || e == "\n"
  {
  }

  lemma CutsFound(a: Assignment)
    requires Parsed(a)
    ensures Spaces(Joined(a)) == |a.indent|
    ensures WordRun(a.key + (a.separator + (a.value + a.ending))) == |a.key|
    ensures Ending(a.value + a.ending) == |a.ending|
  {
    var separated := a.separator + (a.value + a.ending);
    WordIsNoSpace(a.key[0]);
    assert (a.key + separated)[0] == a.key[0];
    SpacesOf(a.indent, a.key + separated);
    SeparatorBegins(separated);
    WordRunOf(a.key, separated);
    EndingStays(a.value, a.ending);
  }

  /** A line put together from such parts is taken apart into them again. */
  lemma JoinedIsParsed(a: Assignment)
    requires Parsed(a)
    ensures ParseLine(Joined(a)) == Some(a)
  {
    CutsFound(a);
    Cut(a.value, a.ending);
    Cut(a.separator, a.value + a.ending);
    Cut(a.key, a.separator + (a.value + a.ending));
    Cut(a.indent, a.key + (a.separator + (a.value + a.ending)));
  }

  lemma SeparatorBegins(s: string)
    requires Separator(s) > 0
    ensures !WordChar(s[0])
  {
    if WordChar(s[0]) { WordIsNoSpace(s[0]); }
  }

  // ---------------------------------------------------------------- rewriting keeps the shape of a line

  lemma OneLineParts(x: string, y: string)
    requires y != ""
    ensures OneLine(x + y) <==> NoBreak(x) && OneLine(y)
    ensures Broken(x + y) <==> Broken(y)
  {
    var s := x + y;
    assert forall i | 0 <= i < |x| :: s[i] == x[i];
    assert forall i | 0 <= i < |y| :: s[|x| + i] == y[i];
  }

  lemma NoBreakIsUnbroken(s: string)
    ensures NoBreak(s) <==> OneLine(s) && !Broken(s)
  {
  }

  /** What a rewritten text has in common with the text: emptiness, the kind of its first character, and its line break. */
  ghost predicate SameShape(s: string, t: string) {
    && (s == "" <==> t == "") && (s != "" ==> (Space(s[0]) <==> Space(t[0])))
    && OneLine(s) && OneLine(t) && (Broken(s) <==> Broken(t)) && (Broken(s) ==> s[|s| - 1] == t[|t| - 1])
  }

  /** A name whose replacement is on one line whenever the name is. */
  ghost predicate LineName(p: Pair) {
    && p.from != "" && p.to != "" && !Space(p.from[0]) && !Space(p.to[0])
    && LastIsWord(p.from) && LastIsWord(p.to) && (NoBreak(p.from) ==> NoBreak(p.to))
  }

  lemma SettingNameIsLineName(pairs: seq<Pair>, p: Pair)
    requires SettingNames(pairs) && AllWellformed(pairs) && p in pairs
    ensures LineName(p)
  {
    if !IsPath(p.from) {
      WordIsNoSpace(p.from[0]);
      WordIsNoSpace(p.to[0]);
    }
  }

  lemma ShapeInParts(x: string, s: string, x': string, t: string)
    requires SameShape(s, t) && OneLine(x + s) && x != "" && x' != "" && (Space(x[0]) <==> Space(x'[0]))
    requires (NoBreak(x) ==> NoBreak(x')) && (s == "" ==> SameShape(x, x'))
    ensures SameShape(x + s, x' + t)
  {
    if s == "" {
      assert x + s == x && x' + t == x';
    } else {
      OneLineParts(x, s);
      OneLineParts(x', t);
      assert (x + s)[0] == x[0] && (x' + t)[0] == x'[0];
      assert (x + s)[|x + s| - 1] == s[|s| - 1] && (x' + t)[|x' + t| - 1] == t[|t| - 1];
    }
  }

  lemma NameHasShape(p: Pair)
    requires LineName(p) && OneLine(p.from)
    ensures SameShape(p.from, p.to) && NoBreak(p.from)
  {
    WordIsNoSpace(p.from[|p.from| - 1]);
    WordIsNoSpace(p.to[|p.to| - 1]);
    NoBreakIsUnbroken(p.from);
    NoBreakIsUnbroken(p.to);
  }

  lemma {:induction false} SubstituteKeepsShape(p: Pair, before: bool, s: string)
    requires LineName(p) && OneLine(s)
    ensures SameShape(s, Substitute(p, before, s))
    decreases |s|
  {
    if s == "" {
    } else if Matches(before, s, p.from) {
      var rest := s[|p.from|..];
      assert s == p.from + rest;
      if rest == "" { assert s == p.from; NameHasShape(p); } else { OneLineParts(p.from, rest); }
      SubstituteKeepsShape(p, LastIsWord(p.from), rest);
      ShapeInParts(p.from, rest, p.to, Substitute(p, LastIsWord(p.from), rest));
    } else {
      assert s == [s[0]] + s[1..];
      if s[1..] != "" { OneLineParts([s[0]], s[1..]); }
      SubstituteKeepsShape(p, WordChar(s[0]), s[1..]);
      ShapeInParts([s[0]], s[1..], [s[0]], Substitute(p, WordChar(s[0]), s[1..]));
    }
  }

  lemma SameShapeAgain(r: string, s: string, t: string)
    requires SameShape(r, s) && SameShape(s, t)
    ensures SameShape(r, t)
  {
  }

  lemma {:induction false} PassKeepsShape(path: seq<Pair>, s: string)
    requires (forall p | p in path :: LineName(p)) && OneLine(s)
    ensures (forall p | p in path :: p.from != "") && SameShape(s, RewriteAll(path, s))
  {
    if path != [] {
      var n := |path| - 1;
      PassKeepsShape(path[..n], s);
      assert LineName(path[n]);
      SubstituteKeepsShape(path[n], false, RewriteAll(path[..n], s));
      SameShapeAgain(s, RewriteAll(path[..n], s), RewriteAll(path, s));
    }
  }

  lemma FrontKeepsShape(front: string, s: string, t: string)
    requires SameShape(s, t) && s != "" && OneLine(front + s)
    ensures SameShape(front + s, front + t)
  {
    OneLineParts(front, s);
    OneLineParts(front, t);
    assert front != "" ==> (front + s)[0] == front[0] == (front + t)[0];
    assert front == "" ==> front + s == s && front + t == t;
    assert (front + s)[|front + s| - 1] == s[|s| - 1] && (front + t)[|front + t| - 1] == t[|t| - 1];
  }

  lemma FrameKeepsShape(f: Frame, p: Pair)
    requires LineName(p) && OneLine(Framed(f, p.from))
    ensures SameShape(Framed(f, p.from), Framed(f, p.to))
  {
    var rest := f.quote + f.tail;
    OneLineParts(f.lead, f.quote + (p.from + rest));
    OneLineParts(f.quote, p.from + rest);
    if rest == "" { assert p.from + rest == p.from; NameHasShape(p); } else { OneLineParts(p.from, rest); }
    ShapeInParts(p.from, rest, p.to, rest);
    FrontKeepsShape(f.quote, p.from + rest, p.to + rest);
    FrontKeepsShape(f.lead, f.quote + (p.from + rest), f.quote + (p.to + rest));
  }

  lemma ScalarKeepsShape(pairs: seq<Pair>, value: string)
    requires Compatible(pairs) && SettingNames(pairs) && OneLine(value)
    ensures SameShape(value, RewriteScalar(pairs, value))
  {
    var path, w := PathPairs(pairs), RewriteAll(PathPairs(pairs), value);
    forall p | p in pairs ensures LineName(p) { SettingNameIsLineName(pairs, p); }
    PassKeepsShape(path, value);
    if exists q :: q in pairs && FrameOf(w, q.from).Some? {
      var p := WholeOfSome(pairs, w);
      FrameFits(w, p.from);
      FrameKeepsShape(FrameOf(w, p.from).value, p);
      SameShapeAgain(value, w, RewriteScalar(pairs, value));
    } else {
      WholeOfNone(pairs, w);
    }
  }

  lemma KeyStaysWord(pairs: seq<Pair>, key: string)
    requires SettingNames(pairs) && AllWord(key)
    ensures AllWord(RewriteKey(pairs, key))
  {
    if Exact(pairs, key).Some? { assert Pair(key, Exact(pairs, key).value) in pairs; }
  }

  lemma WordHasNoBreak(s: string)
    requires AllWord(s)
    ensures NoBreak(s) && !Space(s[0])
  {
    forall i | 0 <= i < |s| ensures !Break(s[i]) { WordIsNoSpace(s[i]); }
  }

  lemma ValueIsOneLine(a: Assignment)
    requires Parsed(a) && OneLine(Joined(a))
    ensures OneLine(a.value) && OneLine(a.value + a.ending) && OneLine(a.separator + (a.value + a.ending))
    ensures OneLine(a.key + (a.separator + (a.value + a.ending)))
  {
    var valued := a.value + a.ending;
    OneLineParts(a.indent, a.key + (a.separator + valued));
    OneLineParts(a.key, a.separator + valued);
    if valued != "" { OneLineParts(a.separator, valued); }
    if a.ending != "" { OneLineParts(a.value, a.ending); } else { assert valued == a.value; }
  }

  lemma ValuedKeepsShape(value: string, value': string, ending: string)
    requires SameShape(value, value') && (value == "" ==> ending == "") && OneLine(value + ending)
    ensures SameShape(value + ending, value' + ending)
  {
    if ending == "" {
      assert value + ending == value && value' + ending == value';
    } else {
      OneLineParts(value, ending);
      NoBreakIsUnbroken(value);
      NoBreakIsUnbroken(value');
      ShapeInParts(value, ending, value', ending);
    }
  }

  lemma LineKeepsShape(pairs: seq<Pair>, a: Assignment)
    requires Compatible(pairs) && SettingNames(pairs) && Parsed(a) && OneLine(Joined(a))
    ensures SameShape(Joined(a), Joined(Replaced(pairs, a)))
  {
    var b, valued := Replaced(pairs, a), a.value + a.ending;
    ValueIsOneLine(a);
    ScalarKeepsShape(pairs, a.value);
    EmptyValue(a);
    ValuedKeepsShape(a.value, b.value, a.ending);
    if valued != "" { FrontKeepsShape(a.separator, valued, b.value + b.ending); }
    KeyStaysWord(pairs, a.key);
    WordHasNoBreak(a.key);
    WordHasNoBreak(b.key);
    ShapeInParts(a.key, a.separator + valued, b.key, a.separator + (b.value + b.ending));
    FrontKeepsShape(a.indent, a.key + (a.separator + valued), b.key + (a.separator + (b.value + b.ending)));
  }

  /** White space in front of an empty value takes the line break too. */
  lemma EmptyValue(a: Assignment)
    requires Parsed(a)
    ensures a.value == "" ==> a.ending == ""
  {
    assert a.value == "" ==> a.value + a.ending == a.ending;
  }

  lemma ShapeHasNo(c: char, s: string, t: string)
    requires SameShape(s, t) && Break(c) && c !in s
    ensures c !in t
  {
    forall i | 0 <= i < |t| ensures t[i] != c {
      if i == |t| - 1 && Broken(s) { assert s[|s| - 1] in s; }
    }
  }

  /** The parts of a rewritten line are those of the line, with key and value rewritten. */
  lemma ReplacedIsParsed(pairs: seq<Pair>, a: Assignment)
    requires Compatible(pairs) && SettingNames(pairs) && Parsed(a) && OneLine(Joined(a))
    ensures Parsed(Replaced(pairs, a))
  {
    var b := Replaced(pairs, a);
    ValueIsOneLine(a);
    ScalarKeepsShape(pairs, a.value);
    ShapeHasNo('\n', a.value, b.value);
    ShapeHasNo('\r', a.value, b.value);
    EmptyValue(a);
    ValuedKeepsShape(a.value, b.value, a.ending);
    KeyStaysWord(pairs, a.key);
    SeparatorStays(a.separator, a.value + a.ending, b.value + b.ending);
  }

  /** A line keeps its shape and, once rewritten, stays as it is. */
  lemma LineSettles(pairs: seq<Pair>, line: string)
    requires Compatible(pairs) && SettingNames(pairs) && OneLine(line) && '\r' !in line
    ensures SameShape(line, RewriteLine(pairs, line))
    ensures RewriteLine(pairs, RewriteLine(pairs, line)) == RewriteLine(pairs, line)
  {
    if ParseLine(line).Some? {
      var a := ParseLine(line).value;
      ParseGives(line);
      PartsAreParsed(line);
      LineKeepsShape(pairs, a);
      AssignmentSettles(pairs, a);
    }
  }

  lemma AssignmentSettles(pairs: seq<Pair>, a: Assignment)
    requires Compatible(pairs) && SettingNames(pairs) && Parsed(a) && OneLine(Joined(a))
    ensures RewriteLine(pairs, Joined(Replaced(pairs, a))) == Joined(Replaced(pairs, a))
  {
    ReplacedIsParsed(pairs, a);
    JoinedIsParsed(Replaced(pairs, a));
    KeySettles(pairs, a.key);
    ScalarSettles(pairs, a.value);
  }

  // ---------------------------------------------------------------- a document rewritten twice

  lemma {:induction false} FirstLineIsLine(s: string)
    requires s != "" && '\r' !in s
    ensures var l := FirstLine(s); OneLine(l) && (Broken(l) || l == s)
  {
    if !Break(s[0]) {
      assert s == [s[0]] + s[1..];
      if s[1..] != "" {
        FirstLineIsLine(s[1..]);
        OneLineParts([s[0]], FirstLine(s[1..]));
      }
    }
  }

  lemma {:induction false} LineIsFirst(line: string, rest: string)
    requires line != "" && '\r' !in line && OneLine(line) && (Broken(line) || rest == "")
    ensures FirstLine(line + rest) == line && (line + rest)[|line|..] == rest
  {
    var s := line + rest;
    assert s[0] == line[0];
    if !Break(line[0]) {
      assert line == [line[0]] + line[1..] && s[1..] == line[1..] + rest;
      if line[1..] == "" {
        assert rest == "" && FirstLine(s[1..]) == "";
      } else {
        OneLineParts([line[0]], line[1..]);
        LineIsFirst(line[1..], rest);
      }
    } else {
      assert |line| == 1;
    }
  }

  /** The first line and the rest of a document. */
  lemma LineAndRest(pairs: seq<Pair>, s: string) returns (line: string, rest: string)
    requires s != "" && '\r' !in s
    ensures line != "" && OneLine(line) && (Broken(line) || rest == "") && |rest| < |s|
    ensures '\r' !in line && '\r' !in rest
    ensures RewriteConfig(pairs, s) == RewriteLine(pairs, line) + RewriteConfig(pairs, rest)
  {
    line, rest := FirstLine(s), s[|FirstLine(s)|..];
    FirstLineIsLine(s);
    assert line == s[..|line|];
  }

  lemma ConfigOfLine(pairs: seq<Pair>, line: string, rest: string)
    requires line != "" && '\r' !in line && OneLine(line) && (Broken(line) || rest == "")
    ensures RewriteConfig(pairs, line + rest) == RewriteLine(pairs, line) + RewriteConfig(pairs, rest)
  {
    LineIsFirst(line, rest);
  }

  lemma NotInBoth(c: char, x: string, y: string)
    requires c !in x && c !in y
    ensures c !in x + y
  {
  }

  /** A settings document that has been rewritten stays as it is. */
  lemma {:induction false} ConfigSettles(pairs: seq<Pair>, s: string)
    requires Compatible(pairs) && SettingNames(pairs) && '\r' !in s
    ensures RewriteConfig(pairs, RewriteConfig(pairs, s)) == RewriteConfig(pairs, s)
    ensures '\r' !in RewriteConfig(pairs, s) && (RewriteConfig(pairs, s) == "" <==> s == "")
    decreases |s|
  {
    if s != "" {
      var line, rest := LineAndRest(pairs, s);
      var line', rest' := RewriteLine(pairs, line), RewriteConfig(pairs, rest);
      LineSettles(pairs, line);
      ShapeHasNo('\r', line, line');
      ConfigSettles(pairs, rest);
      ConfigOfLine(pairs, line', rest');
      NotInBoth('\r', line', rest');
    }
  }
}
