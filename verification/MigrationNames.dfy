/** The names that the migration itself replaces, and exactly when they get in each other's way. */
module MigrationNames {
  import opened PathRewrite
  import opened RewriteExact
  import J = JsonRewrite

  // ---------------------------------------------------------------- the table

  /** The directories that hold the migrated places. */
  datatype Bases = Bases(config: string, state: string, cache: string, data: string, quarantine: string, permissions: string)

  /** The legacy name and the canonical name of each migrated place within its directory. */
  const LEAVES: seq<Pair> := [
    Pair("codex-app", "chatgpt"),
    Pair("codex-app-updater", "chatgpt-updater"),
    Pair(".codex" + QUARANTINE, ".chatgpt" + QUARANTINE),
    Pair("codex" + PERMISSIONS, "chatgpt" + PERMISSIONS)]

  const QUARANTINE := "-linux-quarantine"
  const PERMISSIONS := "-agent-workspace-permissions.json"

  const DOTTED := Pair(".codex-linux", ".chatgpt-linux")

  /** What follows the product in the names that are replaced only as whole strings and keys. */
  const STEMS: seq<string> := [
    LINUX + "-auto-update-on-exit",
    LINUX + "-wrapper-updates-enabled",
    LINUX + "-integration-picker-on-update",
    LINUX + "-agent-workspace-command",
    LINUX + "-agent-workspace-permissions",
    "-wrapper-updater",
    LINUX + "-warm-start-enabled",
    PERMISSIONS]

  const LINUX := "-linux"

  const PRODUCT := Pair("codex", "chatgpt")

  datatype Name = Place(base: string, leaf: nat) | Dotted | Whole(k: nat)

  predicate Known(n: Name) {
    (n.Place? ==> n.leaf < |LEAVES|) && (n.Whole? ==> n.k < |STEMS|)
  }

  function At(base: string, leaf: string): string { base + "/" + leaf }

  function Side(p: Pair, legacy: bool): string { if legacy then p.from else p.to }

  function WholeName(k: nat, legacy: bool): string
    requires k < |STEMS|
  {
    Side(PRODUCT, legacy) + STEMS[k]
  }

  /** A name in its legacy or in its canonical form. */
  function Text(n: Name, legacy: bool): string
    requires Known(n)
  {
    match n
    case Place(base, leaf) => At(base, Side(LEAVES[leaf], legacy))
    case Dotted => Side(DOTTED, legacy)
    case Whole(k) => WholeName(k, legacy)
  }

  function TableNames(b: Bases): (r: set<Name>)
    ensures forall n | n in r :: Known(n)
  {
    {Place(b.config, 0), Place(b.config, 1), Place(b.state, 0), Place(b.state, 1), Place(b.cache, 0), Place(b.cache, 1),
     Place(b.data, 0), Place(b.quarantine, 2), Place(b.permissions, 3),
     Place("/usr/bin", 1), Place("/usr/bin", 0), Place("/usr/lib", 0), Place("/opt", 0),
     Whole(0), Whole(1), Whole(2), Whole(3), Whole(4), Whole(5), Whole(6), Whole(7), Dotted}
  }

  function PairOf(n: Name, forward: bool): Pair
    requires Known(n)
  {
    Pair(Text(n, forward), Text(n, !forward))
  }

  /** Longer names come first. */
  ghost predicate Sorted(pairs: seq<Pair>) {
    forall i, j | 0 <= i < j < |pairs| :: |pairs[i].from| >= |pairs[j].from|
  }

  /** The pairs of one direction, each once, in an order that sorting by length may leave them in. */
  ghost predicate RewritePairs(b: Bases, forward: bool, pairs: seq<Pair>) {
    && NoRepeats(pairs) && Sorted(pairs)
    && forall p :: p in pairs <==> exists n :: n in TableNames(b) && p == PairOf(n, forward)
  }

  // ---------------------------------------------------------------- words

  /** Names made of word characters share characters only when they are the same. */
  lemma WordsOverlapWhole(x: string, y: string, d: int)
    requires AllWord(x) && AllWord(y) && CanOverlap(x, y, d)
    ensures d == 0 && x == y
  {
    assert d == 0 && |x| == |y|;
    assert forall k | 0 <= k < |x| :: x[k] == y[k + d];
  }

  lemma WordsJoin(a: string, b: string)
    requires AllWord(a) && AllWord(b)
    ensures AllWord(a + b)
  {
  }

  lemma ProductIsWord(legacy: bool)
    ensures AllWord(Side(PRODUCT, legacy)) && AllWord("." + Side(PRODUCT, legacy)) && Side(PRODUCT, legacy)[0] == 'c'
  {
  }

  lemma PlainLeavesAreWords(legacy: bool)
    ensures AllWord(Side(LEAVES[0], legacy))
    ensures AllWord(Side(LEAVES[1], legacy))
  {
  }

  lemma TailsAreWords()
    ensures AllWord(QUARANTINE) && AllWord(LINUX)
  {
  }

  lemma PermissionsAreWords()
    ensures AllWord(PERMISSIONS)
  {
  }

  lemma LeafIsWord(k: nat, legacy: bool)
    requires k < |LEAVES|
    ensures AllWord(Side(LEAVES[k], legacy))
  {
    ProductIsWord(legacy);
    if k < 2 {
      PlainLeavesAreWords(legacy);
    } else if k == 2 {
      TailsAreWords();
      WordsJoin("." + Side(PRODUCT, legacy), QUARANTINE);
      assert Side(LEAVES[2], legacy) == "." + Side(PRODUCT, legacy) + QUARANTINE;
    } else {
      PermissionsAreWords();
      WordsJoin(Side(PRODUCT, legacy), PERMISSIONS);
    }
  }

  lemma DottedIsWord(legacy: bool)
    ensures AllWord(Side(DOTTED, legacy)) && Side(DOTTED, legacy)[0] == '.'
  {
  }

  lemma UpdateIsWord()
    ensures AllWord("-auto-update-on-exit")
  {
  }

  lemma WrapperIsWord()
    ensures AllWord("-wrapper-updates-enabled") && AllWord("-wrapper-updater")
  {
  }

  lemma PickerIsWord()
    ensures AllWord("-integration-picker-on-update")
  {
  }

  lemma CommandIsWord()
    ensures AllWord("-agent-workspace-command")
  {
  }

  lemma WorkspaceIsWord()
    ensures AllWord("-agent-workspace-permissions")
  {
  }

  lemma StartIsWord()
    ensures AllWord("-warm-start-enabled")
  {
  }

  lemma StemIsWord(k: nat)
    requires k < |STEMS|
    ensures AllWord(STEMS[k])
  {
    TailsAreWords();
    match k
    case 0 => UpdateIsWord(); WordsJoin(LINUX, "-auto-update-on-exit");
    case 1 => WrapperIsWord(); WordsJoin(LINUX, "-wrapper-updates-enabled");
    case 2 => PickerIsWord(); WordsJoin(LINUX, "-integration-picker-on-update");
    case 3 => CommandIsWord(); WordsJoin(LINUX, "-agent-workspace-command");
    case 4 => WorkspaceIsWord(); WordsJoin(LINUX, "-agent-workspace-permissions");
    case 5 => WrapperIsWord();
    case 6 => StartIsWord(); WordsJoin(LINUX, "-warm-start-enabled");
    case 7 => PermissionsAreWords();
  }

  lemma WholeIsWord(k: nat, legacy: bool)
    requires k < |STEMS|
    ensures AllWord(WholeName(k, legacy)) && WholeName(k, legacy)[0] == 'c'
  {
    StemIsWord(k);
    ProductIsWord(legacy);
    WordsJoin(Side(PRODUCT, legacy), STEMS[k]);
  }

  /** The two forms of all names differ in their second or third character. */
  lemma LeavesDiffer(k: nat, legacy: bool, l: nat, legacy': bool)
    requires k < |LEAVES| && l < |LEAVES| && Side(LEAVES[k], legacy) == Side(LEAVES[l], legacy')
    ensures k == l && legacy == legacy'
  {
  }

  lemma WholesDiffer(k: nat, legacy: bool, l: nat, legacy': bool)
    requires k < |STEMS| && l < |STEMS| && WholeName(k, legacy) == WholeName(l, legacy')
    ensures k == l && legacy == legacy'
  {
    assert WholeName(k, legacy)[1] == Side(PRODUCT, legacy)[1] && WholeName(l, legacy')[1] == Side(PRODUCT, legacy')[1];
    assert WholeName(k, legacy)[|Side(PRODUCT, legacy)|..] == STEMS[k];
    assert WholeName(l, legacy)[|Side(PRODUCT, legacy)|..] == STEMS[l];
    StemsDiffer(k, l);
  }

  lemma StemsDiffer(k: nat, l: nat)
    requires k < |STEMS| && l < |STEMS| && STEMS[k] == STEMS[l]
    ensures k == l
  {
    assert STEMS[1][7] == 'w' && STEMS[3][7] == 'a';
  }

  lemma DottedIsNoLeaf(legacy: bool, l: nat, legacy': bool)
    requires l < |LEAVES|
    ensures Side(DOTTED, legacy) != Side(LEAVES[l], legacy')
  {
  }

  // ---------------------------------------------------------------- places

  /** A directory as an absolute path is printed, the root being the empty string. */
  predicate Absolute(base: string) { base == "" || base[0] == '/' }

  /** The names that are matched inside texts. */
  ghost predicate PathName(n: Name) { Known(n) && !n.Whole? && (n.Place? ==> Absolute(n.base)) }

  ghost predicate TableName(n: Name) { Known(n) && (n.Place? ==> Absolute(n.base)) }

  lemma TextShape(n: Name, legacy: bool)
    requires TableName(n)
    ensures Text(n, legacy) != "" && LastIsWord(Text(n, legacy))
    ensures n.Place? ==> Text(n, legacy)[0] == '/'
    ensures n.Dotted? ==> AllWord(Text(n, legacy)) && Text(n, legacy)[0] == '.'
    ensures n.Whole? ==> AllWord(Text(n, legacy)) && Text(n, legacy)[0] == 'c'
  {
    match n
    case Place(base, leaf) => LeafIsWord(leaf, legacy);
    case Dotted => DottedIsWord(legacy);
    case Whole(k) => WholeIsWord(k, legacy);
  }

  /** The same place has the same directory and the same leaf. */
  lemma SamePlace(b: string, l: string, c: string, m: string)
    requires AllWord(l) && AllWord(m) && At(b, l) == At(c, m)
    ensures b == c && l == m
  {
    var n := At(b, l);
    assert n[|b|] == '/' && n[|c|] == '/';
    assert forall k | |b| < k < |n| :: n[k] == l[k - |b| - 1];
    assert forall k | |c| < k < |n| :: n[k] == m[k - |c| - 1];
    assert n[..|b|] == b && n[..|c|] == c && n[|b| + 1..] == l && n[|c| + 1..] == m;
  }

  lemma SamePlaceDiffers(base: string)
    ensures At(base, "codex-app") != At(base, "chatgpt")
  {
    assert |At(base, "codex-app")| != |At(base, "chatgpt")|;
  }

  lemma TextsDiffer(n: Name, legacy: bool, m: Name, legacy': bool)
    requires TableName(n) && TableName(m) && Text(n, legacy) == Text(m, legacy')
    ensures n == m && legacy == legacy'
  {
    TextShape(n, legacy);
    TextShape(m, legacy');
    if n.Whole? {
      WholesDiffer(n.k, legacy, m.k, legacy');
    } else if n.Place? {
      LeafIsWord(n.leaf, legacy);
      LeafIsWord(m.leaf, legacy');
      SamePlace(n.base, Side(LEAVES[n.leaf], legacy), m.base, Side(LEAVES[m.leaf], legacy'));
      LeavesDiffer(n.leaf, legacy, m.leaf, legacy');
    } else {
      assert DOTTED.from[2] != DOTTED.to[2];
    }
  }

  /** What stands in front of a place stands in its directory. */
  lemma FrontIsDirectory(x: string, c: string, m: string)
    requires x != "" && AllWord(m)
    ensures InFront(x, At(c, m)) <==> StandsIn(x, c)
  {
    var n := At(c, m);
    if InFront(x, n) {
      var d: int :| 0 <= d && d + |x| < |n| && CanOverlap(x, n, d);
      OverlapStandsIn(x, c, m, d);
    }
    if StandsIn(x, c) {
      var i: nat :| i < |c| && Matches(i > 0 && WordChar(c[i - 1]), c[i..], x);
      StandsOverlap(x, c, m, i);
    }
  }

  lemma OverlapStandsIn(x: string, c: string, m: string, d: nat)
    requires x != "" && AllWord(m) && d + |x| < |At(c, m)| && CanOverlap(x, At(c, m), d)
    ensures StandsIn(x, c)
  {
    var n := At(c, m);
    assert forall k | |c| < k < |n| :: n[k] == m[k - |c| - 1];
    assert d + |x| <= |c|;
    forall k | 0 <= k < |x| ensures c[d..][k] == x[k] { assert x[k] == n[k + d]; }
    assert x <= c[d..];
    assert |c[d..]| > |x| ==> c[d..][|x|] == n[d + |x|];
    assert Matches(d > 0 && WordChar(c[d - 1]), c[d..], x);
  }

  lemma StandsOverlap(x: string, c: string, m: string, i: nat)
    requires x != "" && i < |c| && Matches(i > 0 && WordChar(c[i - 1]), c[i..], x)
    ensures InFront(x, At(c, m))
  {
    var n := At(c, m);
    assert n[|c|] == '/';
    forall k | 0 <= k < |x| && 0 <= k + i < |n| ensures x[k] == n[k + i] { assert x[k] == c[i..][k] == c[i + k]; }
    if |c[i..]| > |x| { assert c[i..][|x|] == n[i + |x|]; }
    assert CanOverlap(x, n, i);
  }

  // ---------------------------------------------------------------- where names can meet

  /** No migrated place begins inside another one and reaches its end. */
  ghost predicate PlacesNest(b: Bases) {
    forall n, m, legacy, legacy' | n in TableNames(b) && m in TableNames(b) && n.Place? && m.Place? ::
      Nests(Text(n, legacy), Text(m, legacy'))
  }

  ghost predicate AbsoluteBases(b: Bases) {
    Absolute(b.config) && Absolute(b.state) && Absolute(b.cache) && Absolute(b.data) && Absolute(b.quarantine) && Absolute(b.permissions)
  }

  /** In either form, no name that is matched inside texts stands in the directory of a migrated place. */
  ghost predicate Clear(b: Bases) {
    forall n, m, legacy | n in TableNames(b) && m in TableNames(b) && !n.Whole? && m.Place? :: !StandsIn(Text(n, legacy), m.base)
  }

  lemma TableNamesAreAbsolute(b: Bases, n: Name)
    requires AbsoluteBases(b) && n in TableNames(b)
    ensures TableName(n)
  {
  }

  /** A word that reaches the end of a place is its leaf. */
  lemma WordEndsPlace(r: string, c: string, m: string, d: nat)
    requires AllWord(r) && AllWord(m) && CanOverlap(r, At(c, m), d) && d + |r| == |At(c, m)|
    ensures r == m
  {
    var n := At(c, m);
    assert n[|c|] == '/';
    assert forall k | 0 <= k < |r| && 0 <= k + d < |n| :: r[k] == n[k + d];
    assert forall k | |c| < k < |n| :: n[k] == m[k - |c| - 1];
    assert forall i | d <= i < |n| :: n[i] == r[i - d];
    assert d == |c| + 1;
    assert forall k | 0 <= k < |r| :: r[k] == m[k];
  }

  /** A word that meets a place and is not its leaf stands in its directory. */
  lemma WordMeetsPlace(r: string, c: string, m: string, d: int)
    requires AllWord(r) && AllWord(m) && Absolute(c) && r != m && CanOverlap(r, At(c, m), d)
    ensures 0 <= d && d + |r| < |At(c, m)|
  {
    var n := At(c, m);
    assert n[0] == '/';
    assert forall k | 0 <= k < |r| && 0 <= k + d < |n| :: r[k] == n[k + d];
    if 0 <= d && d + |r| == |n| { WordEndsPlace(r, c, m, d); }
  }

  lemma DottedNests(n: Name, legacy: bool, legacy': bool)
    requires PathName(n) && n.Place?
    ensures Nests(Text(Dotted, legacy), Text(n, legacy')) && Nests(Text(n, legacy'), Text(Dotted, legacy))
  {
    var r, m, x := Side(DOTTED, legacy), Side(LEAVES[n.leaf], legacy'), Text(n, legacy');
    DottedIsWord(legacy);
    LeafIsWord(n.leaf, legacy');
    DottedIsNoLeaf(legacy, n.leaf, legacy');
    forall d: int | CanOverlap(r, x, d) ensures 0 <= d && d + |r| < |x| { WordMeetsPlace(r, n.base, m, d); }
    forall d: int | CanOverlap(x, r, d) ensures d <= 0 && |r| - d < |x| {
      OverlapIsMutual(x, r, d);
      WordMeetsPlace(r, n.base, m, -d);
    }
  }

  lemma NamesNest(b: Bases, n: Name, legacy: bool, m: Name, legacy': bool)
    requires AbsoluteBases(b) && PlacesNest(b) && n in TableNames(b) && m in TableNames(b) && !n.Whole? && !m.Whole?
    ensures Nests(Text(n, legacy), Text(m, legacy'))
  {
    TableNamesAreAbsolute(b, n);
    TableNamesAreAbsolute(b, m);
    if n.Dotted? && m.Dotted? {
      DottedIsWord(legacy);
      DottedIsWord(legacy');
      forall d: int | CanOverlap(Text(n, legacy), Text(m, legacy'), d) ensures d == 0 && Text(n, legacy) == Text(m, legacy') {
        WordsOverlapWhole(Text(n, legacy), Text(m, legacy'), d);
      }
    } else if n.Dotted? {
      DottedNests(m, legacy, legacy');
    } else if m.Dotted? {
      DottedNests(n, legacy', legacy);
    }
  }

  lemma SlashStartsNoOverlap(x: string, w: string, d: int)
    requires x != "" && x[0] == '/' && AllWord(w)
    ensures d >= 0 ==> !CanOverlap(x, w, d)
    ensures d <= 0 ==> !CanOverlap(w, x, d)
  {
    assert 0 <= d < |w| ==> x[0] != w[0 + d];
    assert 0 <= -d < |w| ==> w[-d] != x[-d + d];
  }

  /** A name matched inside texts neither begins inside a whole name nor is reached into by one from the left. */
  lemma WholeAside(n: Name, legacy: bool, k: nat, legacy': bool, d: int)
    requires PathName(n) && k < |STEMS|
    ensures d >= 0 ==> !CanOverlap(Text(n, legacy), Text(Whole(k), legacy'), d)
    ensures d <= 0 ==> !CanOverlap(Text(Whole(k), legacy'), Text(n, legacy), d)
  {
    var x, w := Text(n, legacy), Text(Whole(k), legacy');
    TextShape(n, legacy);
    TextShape(Whole(k), legacy');
    if n.Dotted? {
      if CanOverlap(x, w, d) { WordsOverlapWhole(x, w, d); }
      if CanOverlap(w, x, d) { WordsOverlapWhole(w, x, d); }
    } else {
      SlashStartsNoOverlap(x, w, d);
    }
  }

  // ---------------------------------------------------------------- what each pair replaces

  /** The letter that the other product's name does not have. */
  function Letter(forward: bool): char { if forward then 'x' else 'h' }

  lemma ProductIsLettered(legacy: string)
    requires legacy == "codex-app" || legacy == "codex"
    ensures 'x' in legacy && 'x' !in "chatgpt" && 'h' in "chatgpt" && 'h' !in legacy
  {
    assert legacy[4] == 'x' && "chatgpt"[1] == 'h';
  }

  /** Each form of a name has a letter of its product that the other form has not. */
  ghost predicate Lettered(p: Pair) { Loses(p, 'x') && Loses(Pair(p.to, p.from), 'h') }

  lemma LetterDecides(p: Pair, head: string, legacy: string, tail: string)
    requires legacy == "codex-app" || legacy == "codex"
    requires p == Pair(head + legacy + tail, head + "chatgpt" + tail)
    ensures Lettered(p)
  {
    ProductIsLettered(legacy);
    assert LosesIn(p, 'x', head, legacy, "chatgpt", tail);
    assert LosesIn(Pair(p.to, p.from), 'h', head, "chatgpt", legacy, tail);
  }

  lemma LeafIsLettered(k: nat)
    requires k < |LEAVES|
    ensures Lettered(LEAVES[k])
  {
    match k
    case 0 => LetterDecides(LEAVES[0], "", "codex-app", "");
    case 1 => LetterDecides(LEAVES[1], "", "codex-app", "-updater");
    case 2 => LetterDecides(LEAVES[2], ".", "codex", QUARANTINE);
    case 3 => LetterDecides(LEAVES[3], "", "codex", PERMISSIONS);
  }

  lemma PlaceLoses(base: string, leaf: Pair, c: char)
    requires Loses(leaf, c)
    ensures Loses(Pair(At(base, leaf.from), At(base, leaf.to)), c)
  {
    var head, from, to, tail :| LosesIn(leaf, c, head, from, to, tail);
    assert At(base, leaf.from) == (base + "/" + head) + from + tail;
    assert At(base, leaf.to) == (base + "/" + head) + to + tail;
    assert LosesIn(Pair(At(base, leaf.from), At(base, leaf.to)), c, base + "/" + head, from, to, tail);
  }

  lemma NameLoses(n: Name, forward: bool)
    requires PathName(n)
    ensures Loses(PairOf(n, forward), Letter(forward))
  {
    match n
    case Place(base, leaf) =>
      LeafIsLettered(leaf);
      PlaceLoses(base, Pair(Side(LEAVES[leaf], forward), Side(LEAVES[leaf], !forward)), Letter(forward));
    case Dotted =>
      LetterDecides(DOTTED, ".", "codex", "-linux");
  }

  lemma NameSharesFront(n: Name, forward: bool)
    requires PathName(n)
    ensures SharesFront(PairOf(n, forward))
  {
    var p := PairOf(n, forward);
    match n
    case Place(base, leaf) =>
      LeafIsWord(leaf, forward);
      LeafIsWord(leaf, !forward);
      assert SharesFrontTo(p, |base| + 1);
    case Dotted =>
      DottedIsWord(forward);
      DottedIsWord(!forward);
      assert SharesFrontTo(p, 0);
  }

  /** Both forms of a name are nearly of the same length. */
  lemma NearlySameLength(n: Name, legacy: bool)
    requires PathName(n)
    ensures |Text(n, legacy)| <= |Text(n, !legacy)| + 2
    ensures n.Place? ==> |Text(n, legacy)| >= |n.base| + 8
  {
  }

  // ---------------------------------------------------------------- the table

  lemma SomeName(b: Bases, forward: bool, pairs: seq<Pair>, p: Pair) returns (n: Name)
    requires RewritePairs(b, forward, pairs) && p in pairs
    ensures n in TableNames(b) && p == PairOf(n, forward)
  {
    n :| n in TableNames(b) && p == PairOf(n, forward);
  }

  lemma PairIsWellformed(n: Name, forward: bool)
    requires TableName(n)
    ensures Wellformed(PairOf(n, forward))
    ensures J.IsPath(PairOf(n, forward).from) == !n.Whole? == J.IsPath(PairOf(n, forward).to)
  {
    TextShape(n, forward);
    TextShape(n, !forward);
    if Text(n, forward) == Text(n, !forward) { TextsDiffer(n, forward, n, !forward); }
  }

  lemma NameOf(b: Bases, forward: bool, pairs: seq<Pair>, p: Pair) returns (n: Name)
    requires AbsoluteBases(b) && RewritePairs(b, forward, pairs) && p in pairs
    ensures n in TableNames(b) && TableName(n) && p == PairOf(n, forward) && Wellformed(p)
    ensures J.IsPath(p.from) == !n.Whole? == J.IsPath(p.to)
  {
    n := SomeName(b, forward, pairs, p);
    TableNamesAreAbsolute(b, n);
    PairIsWellformed(n, forward);
  }

  lemma NamesAreDistinct(b: Bases, forward: bool, pairs: seq<Pair>)
    requires AbsoluteBases(b) && RewritePairs(b, forward, pairs)
    ensures Distinct(pairs) && AllWellformed(pairs)
  {
    forall p, q | p in pairs && q in pairs ensures p.from != q.to && (p != q ==> p.from != q.from && p.to != q.to) {
      var n := NameOf(b, forward, pairs, p);
      var m := NameOf(b, forward, pairs, q);
      if p.from == q.to { TextsDiffer(n, forward, m, !forward); }
      if p.from == q.from { TextsDiffer(n, forward, m, forward); }
      if p.to == q.to { TextsDiffer(n, !forward, m, !forward); }
    }
    forall p | p in pairs ensures Wellformed(p) { var n := NameOf(b, forward, pairs, p); }
  }

  lemma WholeNamesAside(b: Bases, forward: bool, pairs: seq<Pair>)
    requires AbsoluteBases(b) && RewritePairs(b, forward, pairs)
    ensures WholesAside(pairs)
  {
    forall p | p in pairs ensures J.IsPath(p.from) == J.IsPath(p.to) { var n := NameOf(b, forward, pairs, p); }
    forall r, q | r in J.PathPairs(pairs) && q in pairs && q !in J.PathPairs(pairs)
      ensures Unstarted(r.from, q.from) && Unstarted(r.from, q.to) && Unreached(q.from, r.to) && Unreached(q.to, r.to)
    {
      var n := NameOf(b, forward, pairs, r);
      var m := NameOf(b, forward, pairs, q);
      WholePairAside(n, m, forward);
    }
  }

  lemma WholePairAside(n: Name, m: Name, forward: bool)
    requires PathName(n) && Known(m) && m.Whole?
    ensures var r, q := PairOf(n, forward), PairOf(m, forward);
            Unstarted(r.from, q.from) && Unstarted(r.from, q.to) && Unreached(q.from, r.to) && Unreached(q.to, r.to)
  {
    forall d: int, legacy, legacy' ensures d >= 0 ==> !CanOverlap(Text(n, legacy), Text(m, legacy'), d)
      ensures d <= 0 ==> !CanOverlap(Text(m, legacy'), Text(n, legacy), d)
    {
      WholeAside(n, legacy, m.k, legacy', d);
    }
  }

  lemma PathNamesNest(b: Bases, forward: bool, pairs: seq<Pair>)
    requires AbsoluteBases(b) && PlacesNest(b) && RewritePairs(b, forward, pairs)
    ensures PathsNest(J.PathPairs(pairs)) && Fewer(J.PathPairs(pairs), Letter(forward))
  {
    var path := J.PathPairs(pairs);
    forall p | p in path ensures SharesFront(p) && Loses(p, Letter(forward)) {
      var n := NameOf(b, forward, pairs, p);
      NameSharesFront(n, forward);
      NameLoses(n, forward);
    }
    forall p, q | p in path && q in path ensures Nests(p.from, q.from) && Nests(p.from, q.to) && Nests(p.to, q.to) {
      var n := NameOf(b, forward, pairs, p);
      var m := NameOf(b, forward, pairs, q);
      NamesNest(b, n, forward, m, forward);
      NamesNest(b, n, forward, m, !forward);
      NamesNest(b, n, !forward, m, !forward);
    }
  }

  lemma {:induction false} PathsStaySorted(pairs: seq<Pair>)
    requires Sorted(pairs)
    ensures Sorted(J.PathPairs(pairs))
  {
    if pairs != [] { PathsStaySorted(pairs[..|pairs| - 1]); }
  }

  /** One name of a pair stands in front of a name of another pair exactly when it stands in its directory. */
  lemma FrontOfName(n: Name, legacy: bool, m: Name, legacy': bool)
    requires PathName(n) && PathName(m)
    ensures InFront(Text(n, legacy), Text(m, legacy')) <==> m.Place? && StandsIn(Text(n, legacy), m.base)
  {
    TextShape(n, legacy);
    match m
    case Place(base, leaf) =>
      LeafIsWord(leaf, legacy');
      FrontIsDirectory(Text(n, legacy), base, Side(LEAVES[leaf], legacy'));
    case Dotted =>
      DottedIsWord(legacy');
  }

  /** A name in whose directory a replacement stands is longer than the name replaced. */
  lemma HolderIsLonger(n: Name, m: Name, forward: bool)
    requires PathName(n) && PathName(m) && InFront(Text(n, !forward), Text(m, forward))
    ensures |Text(m, forward)| > |Text(n, forward)|
  {
    FrontOfName(n, !forward, m, forward);
    NearlySameLength(n, forward);
    NearlySameLength(m, forward);
  }

  lemma HolderIsLongerPair(b: Bases, forward: bool, pairs: seq<Pair>, p: Pair, q: Pair)
    requires AbsoluteBases(b) && RewritePairs(b, forward, pairs) && p in J.PathPairs(pairs) && q in J.PathPairs(pairs)
    requires InFront(p.to, q.from)
    ensures |q.from| > |p.from|
  {
    var n := NameOf(b, forward, pairs, p);
    var m := NameOf(b, forward, pairs, q);
    HolderIsLonger(n, m, forward);
  }

  lemma HoldersComeFirst(b: Bases, forward: bool, pairs: seq<Pair>)
    requires AbsoluteBases(b) && RewritePairs(b, forward, pairs)
    ensures HoldersFirst(J.PathPairs(pairs))
  {
    var path := J.PathPairs(pairs);
    PathsStaySorted(pairs);
    forall i, j | 0 <= i < |path| && 0 <= j < |path| && InFront(path[i].to, path[j].from) ensures j < i {
      HolderIsLongerPair(b, forward, pairs, path[i], path[j]);
    }
  }

  lemma OwnTable(b: Bases, forward: bool, pairs: seq<Pair>)
    requires AbsoluteBases(b) && PlacesNest(b) && RewritePairs(b, forward, pairs)
    ensures Table(pairs)
  {
    NamesAreDistinct(b, forward, pairs);
    WholeNamesAside(b, forward, pairs);
    PathNamesNest(b, forward, pairs);
    HoldersComeFirst(b, forward, pairs);
  }

  // ---------------------------------------------------------------- clear directories

  lemma InTable(b: Bases, forward: bool, pairs: seq<Pair>, n: Name)
    requires RewritePairs(b, forward, pairs) && n in TableNames(b) && TableName(n) && !n.Whole?
    ensures PairOf(n, forward) in J.PathPairs(pairs)
  {
    TextShape(n, forward);
  }

  lemma ClearIsNoneInFront(b: Bases, forward: bool, pairs: seq<Pair>)
    requires AbsoluteBases(b) && RewritePairs(b, forward, pairs)
    ensures Clear(b) <==> NoneInFront(J.PathPairs(pairs))
  {
    if Clear(b) { ClearHasNoneInFront(b, forward, pairs); }
    if NoneInFront(J.PathPairs(pairs)) {
      forall n, m, legacy | n in TableNames(b) && m in TableNames(b) && !n.Whole? && m.Place?
        ensures !StandsIn(Text(n, legacy), m.base)
      {
        TableNamesAreAbsolute(b, n);
        TableNamesAreAbsolute(b, m);
        InTable(b, forward, pairs, n);
        InTable(b, forward, pairs, m);
        FrontOfName(n, legacy, m, if legacy == forward then !forward else forward);
      }
    }
  }

  lemma ClearHasNoneInFront(b: Bases, forward: bool, pairs: seq<Pair>)
    requires AbsoluteBases(b) && RewritePairs(b, forward, pairs) && Clear(b)
    ensures NoneInFront(J.PathPairs(pairs))
  {
    var path := J.PathPairs(pairs);
    forall p, q | p in path && q in path ensures !InFront(p.from, q.to) && !InFront(p.to, q.from) {
      var n := NameOf(b, forward, pairs, p);
      var m := NameOf(b, forward, pairs, q);
      FrontOfName(n, forward, m, !forward);
      FrontOfName(n, !forward, m, forward);
    }
  }

  /** With clear directories rewriting with the migration's own names settles and can be undone, in either direction. */
  lemma OwnNamesAreTwoWay(b: Bases, forward: bool, pairs: seq<Pair>)
    requires AbsoluteBases(b) && PlacesNest(b) && Clear(b) && RewritePairs(b, forward, pairs)
    ensures J.TwoWay(pairs)
  {
    OwnTable(b, forward, pairs);
    ClearIsNoneInFront(b, forward, pairs);
    NoneInFrontIsTwoWay(pairs);
  }

  /** Rewriting with the migration's own names is idempotent on every persisted value if and only if its directories are clear. */
  lemma OwnNamesAreExact(b: Bases, forward: bool, pairs: seq<Pair>)
    requires AbsoluteBases(b) && PlacesNest(b) && RewritePairs(b, forward, pairs)
    ensures Clear(b) <==> forall v :: Repeatable(pairs, v)
  {
    OwnTable(b, forward, pairs);
    ClearIsNoneInFront(b, forward, pairs);
    ValuesAreExact(pairs);
  }
}
