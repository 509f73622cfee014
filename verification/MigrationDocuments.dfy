/** The rewriting of whole documents, and exactly when a document once rewritten stays as it is. */
module MigrationDocuments {
  import opened Basics
  import opened Text
  import opened MigrationTree
  import opened MigrationPost
  import P = PathRewrite
  import X = RewriteExact
  import J = JsonRewrite
  import C = ConfigRewrite
  import N = MigrationNames
  import H = MigrationHomes

  /**
   What lies outside the model: reading and printing JSON, which numerals the printer uses, and
   the check that a file is too large or no text.
   */
  datatype Formats = Formats(parse: string -> Option<J.Json>, print_: J.Json -> string, numeral: string -> bool, skipped: string -> bool) {
    /**
     Reading yields values without repeated keys and with numbers in the printer's notation;
     such a value, printed with or without a final line break, is read back as it was. Printed
     text holds no carriage return, because control characters are escaped.
     */
    ghost predicate Faithful() {
      && (forall s :: parse(s).Some? ==> J.WellFormed(numeral, parse(s).value))
      && (forall v :: J.WellFormed(numeral, v) ==> Reads(print_(v), v) && Reads(print_(v) + "\n", v) && '\r' !in print_(v))
    }

    predicate Reads(s: string, v: J.Json) { parse(s) == Some(v) }
  }

  /** Text as it is read from a file: every kind of line end becomes a newline. */
  function ReadText(s: string): string {
    if s == "" then ""
    else if s[0] == '\r' then "\n" + ReadText(s[if |s| > 1 && s[1] == '\n' then 2 else 1..])
    else [s[0]] + ReadText(s[1..])
  }

  lemma {:induction false} ReadWithoutReturns(s: string)
    ensures '\r' !in ReadText(s)
    ensures '\r' !in s ==> ReadText(s) == s
    decreases |s|
  {
    if s != "" {
      ReadWithoutReturns(s[if s[0] == '\r' && |s| > 1 && s[1] == '\n' then 2 else 1..]);
      assert s == [s[0]] + s[1..];
    }
  }

  predicate IsJson(name: string) { EndsWith(Lower(name), ".json") }

  function RewriteDocument(pairs: seq<P.Pair>, f: Formats, original: string): Rewrite {
    match f.parse(original)
    case None => Keep
    case Some(value) =>
      match J.RewriteValue(pairs, value)
      case None => Collision
      case Some(rewritten) =>
        if rewritten == value then Keep
        else Write(f.print_(rewritten) + if EndsWith(original, "\n") then "\n" else "")
  }

  function RewriteSettings(pairs: seq<P.Pair>, original: string): Rewrite {
    var rewritten := C.RewriteConfig(pairs, original);
    if rewritten == original then Keep else Write(rewritten)
  }

  /** The rewriter of one direction. */
  function DocumentRewriter(pairs: seq<P.Pair>, f: Formats): Rewriter {
    (name: string, data: string) =>
      if f.skipped(data) then Keep
      else if IsJson(name) then RewriteDocument(pairs, f, ReadText(data))
      else RewriteSettings(pairs, ReadText(data))
  }

  lemma DocumentSettles(pairs: seq<P.Pair>, f: Formats, original: string)
    requires J.Compatible(pairs) && f.Faithful()
    requires RewriteDocument(pairs, f, original).Write?
    ensures var data := RewriteDocument(pairs, f, original).data; RewriteDocument(pairs, f, data) == Keep && '\r' !in data
  {
    var value := f.parse(original).value;
    var rewritten := J.RewriteValue(pairs, value).value;
    J.JsonRewritingIsIdempotent(pairs, value);
    J.RewritingKeepsWellFormed(pairs, f.numeral, value);
    assert f.print_(rewritten) + "" == f.print_(rewritten);
    assert f.Reads(f.print_(rewritten), rewritten) && f.Reads(f.print_(rewritten) + "\n", rewritten);
  }

  lemma SettingsSettle(pairs: seq<P.Pair>, original: string)
    requires J.Compatible(pairs) && C.SettingNames(pairs) && '\r' !in original
    requires RewriteSettings(pairs, original).Write?
    ensures var data := RewriteSettings(pairs, original).data; RewriteSettings(pairs, data) == Keep && '\r' !in data
  {
    C.ConfigSettles(pairs, original);
  }

  lemma RewriterSettlesAt(pairs: seq<P.Pair>, f: Formats, name: string, data: string)
    requires J.Compatible(pairs) && C.SettingNames(pairs) && f.Faithful()
    ensures SettlesAt(DocumentRewriter(pairs, f), name, data)
  {
    var original := ReadText(data);
    ReadWithoutReturns(data);
    if !f.skipped(data) && IsJson(name) && RewriteDocument(pairs, f, original).Write? {
      DocumentSettles(pairs, f, original);
      ReadWithoutReturns(RewriteDocument(pairs, f, original).data);
    }
    if !f.skipped(data) && !IsJson(name) && RewriteSettings(pairs, original).Write? {
      SettingsSettle(pairs, original);
      ReadWithoutReturns(RewriteSettings(pairs, original).data);
    }
  }

  /** Names that stay apart make rewriting settle, which is what rerunning the migration relies on. */
  lemma RewriterSettles(pairs: seq<P.Pair>, f: Formats)
    requires J.Compatible(pairs) && C.SettingNames(pairs) && f.Faithful()
    ensures Settles(DocumentRewriter(pairs, f))
  {
    forall name, data ensures SettlesAt(DocumentRewriter(pairs, f), name, data) { RewriterSettlesAt(pairs, f, name, data); }
  }

  // ---------------------------------------------------------------- the migration's own names

  lemma OwnNamesInSettings(b: N.Bases, forward: bool, pairs: seq<P.Pair>)
    requires N.AbsoluteBases(b) && N.RewritePairs(b, forward, pairs)
    ensures C.SettingNames(pairs)
  {
    forall p | p in pairs
      ensures J.IsPath(p.from) ==> J.IsPath(p.to) && P.LastIsWord(p.from) && P.LastIsWord(p.to)
      ensures !J.IsPath(p.from) ==> P.AllWord(p.from) && P.AllWord(p.to) && !J.IsPath(p.to)
      ensures (P.AllWord(p.from) ==> P.AllWord(p.to)) && (C.NoBreak(p.from) ==> C.NoBreak(p.to))
    {
      var n := N.NameOf(b, forward, pairs, p);
      OwnNameInSettings(n, forward);
    }
  }

  lemma OwnNameInSettings(n: N.Name, forward: bool)
    requires N.TableName(n)
    ensures var p := N.PairOf(n, forward);
            && P.LastIsWord(p.from) && P.LastIsWord(p.to)
            && (n.Whole? ==> P.AllWord(p.from) && P.AllWord(p.to))
            && (P.AllWord(p.from) ==> P.AllWord(p.to)) && (C.NoBreak(p.from) ==> C.NoBreak(p.to))
  {
    N.TextShape(n, forward);
    N.TextShape(n, !forward);
    var p := N.PairOf(n, forward);
    if n.Place? {
      N.LeafIsWord(n.leaf, !forward);
      PlaceOnOneLine(n.base, N.Side(N.LEAVES[n.leaf], forward), N.Side(N.LEAVES[n.leaf], !forward));
    } else {
      C.WordHasNoBreak(p.to);
    }
  }

  lemma PlaceOnOneLine(base: string, leaf: string, leaf': string)
    requires P.AllWord(leaf')
    ensures C.NoBreak(N.At(base, leaf)) ==> C.NoBreak(N.At(base, leaf'))
  {
    C.WordHasNoBreak(leaf');
    assert forall i | 0 <= i < |base| :: N.At(base, leaf)[i] == base[i] == N.At(base, leaf')[i];
  }

  /** The document that holds just this string. */
  function Holding(f: Formats, s: string): string { f.print_(J.Text(s)) }

  predicate Fits(f: Formats, s: string) { !f.skipped(Holding(f, s)) && !f.skipped(Holding(f, s) + "\n") }

  lemma SchemaNameExists()
    ensures SchemaName("a.json") && IsJson("a.json")
  {
    assert Lower("a.json")[1..] == ".json";
    assert SCHEMA_SUFFIXES[2] == ".json";
  }

  /** Rewriting a document that holds one string, with or without a final line break. */
  lemma HoldingRewritten(pairs: seq<P.Pair>, f: Formats, s: string, data: string)
    requires f.Faithful() && Fits(f, s) && (data == Holding(f, s) || data == Holding(f, s) + "\n")
    requires J.RewriteText(pairs, s) != s
    ensures var r := DocumentRewriter(pairs, f)("a.json", data);
            var next := Holding(f, J.RewriteText(pairs, s));
            r.Write? && (r.data == next || r.data == next + "\n") && r.data != data
  {
    var t := J.RewriteText(pairs, s);
    SchemaNameExists();
    forall x ensures J.WellFormed(f.numeral, J.Text(x)) && f.Reads(Holding(f, x), J.Text(x)) && f.Reads(Holding(f, x) + "\n", J.Text(x)) {}
    assert '\r' !in Holding(f, s) by { assert J.WellFormed(f.numeral, J.Text(s)); }
    ReadWithoutReturns(data);
    assert f.Reads(data, J.Text(s));
    assert J.RewriteValue(pairs, J.Text(s)) == Some(J.Text(t));
    assert Holding(f, t) + "" == Holding(f, t);
  }

  /** A string that is rewritten twice makes a document that does not settle. */
  lemma TwiceDoesNotSettle(pairs: seq<P.Pair>, f: Formats, s: string)
    requires f.Faithful() && J.RewriteText(pairs, J.RewriteText(pairs, s)) != J.RewriteText(pairs, s)
    requires Fits(f, s) && Fits(f, J.RewriteText(pairs, s))
    ensures !Settles(DocumentRewriter(pairs, f))
  {
    var rw, first := DocumentRewriter(pairs, f), Holding(f, s);
    HoldingRewritten(pairs, f, s, first);
    HoldingRewritten(pairs, f, J.RewriteText(pairs, s), rw("a.json", first).data);
    SchemaNameExists();
    assert !SettlesAt(rw, "a.json", first);
  }

  /** A string about as long as two names fits into a document that is not skipped. */
  ghost predicate Roomy(pairs: seq<P.Pair>, f: Formats) { forall s | X.Short(pairs, s) :: Fits(f, s) }

  /**
   Documents rewritten with the migration's own names are left alone by a rerun if and only if no
   such name stands in the directory of a migrated place.
   */
  lemma OwnNamesSettleExactly(b: N.Bases, forward: bool, pairs: seq<P.Pair>, f: Formats)
    requires N.AbsoluteBases(b) && N.PlacesNest(b) && N.RewritePairs(b, forward, pairs) && f.Faithful() && Roomy(pairs, f)
    ensures N.Clear(b) <==> Settles(DocumentRewriter(pairs, f))
  {
    if N.Clear(b) {
      OwnNamesSettle(b, forward, pairs, f);
    } else {
      N.OwnTable(b, forward, pairs);
      N.ClearIsNoneInFront(b, forward, pairs);
      var s := X.SomeTextIsRewrittenTwice(pairs);
      TwiceDoesNotSettle(pairs, f, s);
    }
  }

  /** In clear directories rerunning settles, however little fits into a document. */
  lemma OwnNamesSettle(b: N.Bases, forward: bool, pairs: seq<P.Pair>, f: Formats)
    requires N.AbsoluteBases(b) && N.PlacesNest(b) && N.Clear(b) && N.RewritePairs(b, forward, pairs) && f.Faithful()
    ensures Settles(DocumentRewriter(pairs, f))
  {
    N.OwnNamesAreTwoWay(b, forward, pairs);
    OwnNamesInSettings(b, forward, pairs);
    RewriterSettles(pairs, f);
  }

  /** In a home directory that is the installed product's place documents do not settle. */
  lemma InstalledHomeDoesNotSettle(home: string, n: N.Name, pairs: seq<P.Pair>, f: Formats)
    requires H.InstalledHome(home, n) && N.RewritePairs(H.FallbackBases(home), true, pairs) && f.Faithful()
    requires Fits(f, H.LegacyPath(n)) && Fits(f, N.At(N.At(home, ".config"), "codex-app"))
    ensures !Settles(DocumentRewriter(pairs, f))
  {
    H.InstalledHomeIsRewrittenTwice(home, n, pairs);
    N.SamePlaceDiffers(N.At(home, ".config"));
    TwiceDoesNotSettle(pairs, f, H.LegacyPath(n));
  }
}
