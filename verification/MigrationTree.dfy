/**
 Directory trees moved by the state migration, and the walk that discards volatile
 entries from them. Every removal is one atomic step, and the process may be killed
 before any of them: `left` is how many more steps it is allowed to take.
 */
module MigrationTree {
  import opened Basics

  /** The names from the root of a moved directory down to an entry. */
  type RelPath = seq<string>

  /**
   Where a link leads: along a path that begins at the root of the same tree and may itself
   run through links and `..`, or outside of the tree. Of what lies outside only the
   directories found beyond the link are kept, `[]` standing for its target itself.
   */
  datatype LinkTarget = Outside(directories: set<RelPath>) | Inside(path: RelPath)

  datatype Entry = Dir | File(data: string) | Link(target: LinkTarget) | Special

  type Tree = map<RelPath, Entry>

  // ---------------------------------------------------------------- names

  const TEMP_DIRECTORY_NAMES: set<string> := {"tmp", "temp", ".tmp", "partials"}

  const VOLATILE_NAMES: set<string> :=
    {"app.pid", "webview.pid", "check.lock", "launch-action.sock", "SingletonCookie", "SingletonLock", "SingletonSocket"}

  const VOLATILE_SUFFIXES: seq<string> := [".pid", ".sock", ".socket", ".lock", ".tmp", ".temp", ".part"]

  predicate EndsWith(s: string, suffix: string) {
    |suffix| <= |s| && s[|s| - |suffix|..] == suffix
  }

  lemma EndsLike(s: string, suffix: string)
    requires EndsWith(s, suffix) && suffix != ""
    ensures s[|s| - 1] == suffix[|suffix| - 1]
  {
  }

  predicate VolatileName(name: string) {
    name in VOLATILE_NAMES || exists i :: 0 <= i < |VOLATILE_SUFFIXES| && EndsWith(name, VOLATILE_SUFFIXES[i])
  }

  predicate TempName(name: string) { name in TEMP_DIRECTORY_NAMES }

  // ---------------------------------------------------------------- trees

  predicate Under(root: RelPath, p: RelPath) { root <= p }

  /** The entry, if there is one, lies in a real directory of the tree. */
  predicate Rooted(t: Tree, p: RelPath) {
    p in t ==> p != [] && (|p| > 1 ==> p[..|p| - 1] in t && t[p[..|p| - 1]] == Dir)
  }

  ghost predicate Closed(t: Tree) {
    forall p :: Rooted(t, p)
  }

  function Parent(p: RelPath): RelPath
    requires p != []
  {
    p[..|p| - 1]
  }

  function Last(p: RelPath): string
    requires p != []
  {
    p[|p| - 1]
  }

  lemma SameLevel(p: RelPath, q: RelPath)
    requires |p| == |q|
    ensures p <= q ==> p == q
  {
    assert p <= q ==> q[..|p|] == q;
  }

  lemma AboveOrSame(p: RelPath, q: RelPath)
    requires q != []
    ensures p <= q <==> p == q || p <= Parent(q)
  {
  }

  function Children(t: Tree, dir: RelPath): set<RelPath> {
    set p | p in t && |p| == |dir| + 1 && Under(dir, p)
  }

  lemma {:induction false} AncestorIsDirectory(t: Tree, p: RelPath, q: RelPath)
    requires Closed(t) && q in t && p < q && p != []
    ensures p in t && t[p] == Dir
    decreases |q|
  {
    var parent := Parent(q);
    assert Rooted(t, q);
    if |parent| > |p| {
      assert p < parent;
      AncestorIsDirectory(t, p, parent);
    } else {
      assert parent == p;
    }
  }

  // ---------------------------------------------------------------- following links

  /** How many links the kernel follows in one lookup. */
  const FOLLOW_LIMIT := 40

  /** Looking up `rest` from the directory `at` ends at a directory, with `links` more links to follow at most. */
  predicate Leads(t: Tree, at: RelPath, rest: RelPath, links: nat)
    decreases links, 0, |rest|
  {
    if rest == [] then true
    else if rest[0] == ".." then at != [] && Leads(t, Parent(at), rest[1..], links)
    else
      var next := at + [rest[0]];
      next in t &&
      match t[next]
      case Dir => Leads(t, next, rest[1..], links)
      case Link(target) => links > 0 && Follows(t, target, rest[1..], links - 1)
      case _ => false
  }

  /** The same lookup from where a link leads. */
  predicate Follows(t: Tree, target: LinkTarget, rest: RelPath, links: nat)
    decreases links, 1
  {
    match target
    case Inside(path) => Leads(t, [], path + rest, links)
    case Outside(directories) => exists d :: d in directories && rest <= d
  }

  /** The entries that this lookup finds on its way. */
  ghost function Found(t: Tree, at: RelPath, rest: RelPath, links: nat): set<RelPath>
    decreases links, 0, |rest|
  {
    if rest == [] then {}
    else if rest[0] == ".." then if at == [] then {} else Found(t, Parent(at), rest[1..], links)
    else
      var next := at + [rest[0]];
      if next !in t then {}
      else
        {next} +
        match t[next]
        case Dir => Found(t, next, rest[1..], links)
        case Link(target) => if links == 0 then {} else FoundBehind(t, target, rest[1..], links - 1)
        case _ => {}
  }

  ghost function FoundBehind(t: Tree, target: LinkTarget, rest: RelPath, links: nat): set<RelPath>
    decreases links, 1
  {
    match target
    case Inside(path) => Found(t, [], path + rest, links)
    case Outside(_) => {}
  }

  /** What `is_dir` says of an entry, following links. */
  predicate DirLike(t: Tree, p: RelPath)
    requires p in t
  {
    match t[p]
    case Dir => true
    case Link(target) => Follows(t, target, [], FOLLOW_LIMIT - 1)
    case _ => false
  }

  /** The entries on which the verdict about a link rests. */
  ghost function Supports(t: Tree, q: RelPath): set<RelPath>
    requires q in t && t[q].Link?
  {
    FoundBehind(t, t[q].target, [], FOLLOW_LIMIT - 1)
  }

  /** `t` is `t0` with entries taken away and files put in. */
  ghost predicate Reduced(t0: Tree, t: Tree) {
    forall p | p in t :: (p in t0 && t[p] == t0[p]) || t[p].File?
  }

  ghost predicate Unchanged(t0: Tree, t: Tree, s: set<RelPath>) {
    forall e | e in s :: e in t0 && e in t && t[e] == t0[e]
  }

  /** A lookup succeeds in a reduced tree exactly when it did before and all it found is still there. */
  lemma {:induction false} LeadsWhileFound(t0: Tree, t: Tree, at: RelPath, rest: RelPath, links: nat)
    requires Reduced(t0, t)
    ensures Leads(t, at, rest, links) <==> Leads(t0, at, rest, links) && Unchanged(t0, t, Found(t0, at, rest, links))
    ensures Leads(t, at, rest, links) ==> Found(t, at, rest, links) == Found(t0, at, rest, links)
    decreases links, 0, |rest|
  {
    if rest != [] {
      if rest[0] == ".." {
        if at != [] { LeadsWhileFound(t0, t, Parent(at), rest[1..], links); }
      } else {
        var next := at + [rest[0]];
        if next in t && next in t0 && t[next] == t0[next] {
          match t[next]
          case Dir => LeadsWhileFound(t0, t, next, rest[1..], links);
          case Link(target) => if links > 0 { FollowsWhileFound(t0, t, target, rest[1..], links - 1); }
          case _ =>
        } else if next in t0 {
          assert next in Found(t0, at, rest, links);
        }
      }
    }
  }

  lemma {:induction false} FollowsWhileFound(t0: Tree, t: Tree, target: LinkTarget, rest: RelPath, links: nat)
    requires Reduced(t0, t)
    ensures Follows(t, target, rest, links) <==> Follows(t0, target, rest, links) && Unchanged(t0, t, FoundBehind(t0, target, rest, links))
    ensures Follows(t, target, rest, links) ==> FoundBehind(t, target, rest, links) == FoundBehind(t0, target, rest, links)
    decreases links, 1
  {
    if target.Inside? { LeadsWhileFound(t0, t, [], target.path + rest, links); }
  }

  /** A link keeps its verdict exactly while everything it rests on is there. */
  lemma DirLikeWhileSupported(t0: Tree, t: Tree, q: RelPath)
    requires Reduced(t0, t) && q in t0 && q in t && t[q] == t0[q]
    ensures DirLike(t, q) <==> DirLike(t0, q) && (t0[q].Link? ==> Unchanged(t0, t, Supports(t0, q)))
    ensures DirLike(t, q) && t0[q].Link? ==> Supports(t, q) == Supports(t0, q)
  {
    if t0[q].Link? { FollowsWhileFound(t0, t, t0[q].target, [], FOLLOW_LIMIT - 1); }
  }

  /** A shorter lookup with more links to spare succeeds too. */
  lemma {:induction false} LeadsOnTheWay(t: Tree, at: RelPath, rest: RelPath, more: RelPath, links: nat, limit: nat)
    requires Leads(t, at, rest + more, links) && links <= limit
    ensures Leads(t, at, rest, limit)
    decreases links, 0, |rest|
  {
    if rest != [] {
      assert (rest + more)[1..] == rest[1..] + more;
      if rest[0] == ".." {
        LeadsOnTheWay(t, Parent(at), rest[1..], more, links, limit);
      } else {
        var next := at + [rest[0]];
        match t[next]
        case Dir => LeadsOnTheWay(t, next, rest[1..], more, links, limit);
        case Link(target) => FollowsOnTheWay(t, target, rest[1..], more, links - 1, limit - 1);
      }
    }
  }

  lemma {:induction false} FollowsOnTheWay(t: Tree, target: LinkTarget, rest: RelPath, more: RelPath, links: nat, limit: nat)
    requires Follows(t, target, rest + more, links) && links <= limit
    ensures Follows(t, target, rest, limit)
    decreases links, 1
  {
    match target
    case Inside(path) =>
      assert path + (rest + more) == (path + rest) + more;
      LeadsOnTheWay(t, [], path + rest, more, links, limit);
    case Outside(directories) =>
      var d :| d in directories && rest + more <= d;
      assert rest <= d;
  }

  /** Everything a successful lookup finds leads to a directory itself. */
  lemma {:induction false} FoundLeads(t: Tree, at: RelPath, rest: RelPath, links: nat, e: RelPath)
    requires Leads(t, at, rest, links) && links <= FOLLOW_LIMIT && e in Found(t, at, rest, links)
    ensures e in t && DirLike(t, e)
    decreases links, 0, |rest|
  {
    if rest[0] == ".." {
      FoundLeads(t, Parent(at), rest[1..], links, e);
    } else {
      var next := at + [rest[0]];
      match t[next]
      case Dir => if e != next { FoundLeads(t, next, rest[1..], links, e); }
      case Link(target) =>
        assert [] + rest[1..] == rest[1..];
        FollowsOnTheWay(t, target, [], rest[1..], links - 1, FOLLOW_LIMIT - 1);
        if e != next { FoundBehindLeads(t, target, rest[1..], links - 1, e); }
    }
  }

  lemma {:induction false} FoundBehindLeads(t: Tree, target: LinkTarget, rest: RelPath, links: nat, e: RelPath)
    requires Follows(t, target, rest, links) && links <= FOLLOW_LIMIT && e in FoundBehind(t, target, rest, links)
    ensures e in t && DirLike(t, e)
    decreases links, 1
  {
    FoundLeads(t, [], target.path + rest, links, e);
  }

  lemma SupportsLead(t: Tree, q: RelPath, e: RelPath)
    requires q in t && t[q].Link? && DirLike(t, q) && e in Supports(t, q)
    ensures e in t && DirLike(t, e)
  {
    FoundBehindLeads(t, t[q].target, [], FOLLOW_LIMIT - 1, e);
  }

  /** How the walk decides on an entry it meets: by directory name, or by file name. */
  predicate Marked(t: Tree, p: RelPath)
    requires p in t && p != []
  {
    if DirLike(t, p) then TempName(Last(p)) else VolatileName(Last(p))
  }

  // ---------------------------------------------------------------- removing a whole directory

  function Below(t: Tree, root: RelPath): set<RelPath> {
    set p | p in t && Under(root, p)
  }

  lemma LongestExists(s: set<RelPath>)
    requires s != {}
    ensures exists p :: p in s && forall q | q in s :: |q| <= |p|
    decreases |s|
  {
    var p :| p in s;
    if s != {p} {
      LongestExists(s - {p});
      var r :| r in s - {p} && forall q | q in s - {p} :: |q| <= |r|;
      assert (if |p| <= |r| then r else p) in s;
    }
  }

  /** An entry with nothing left below it. */
  ghost predicate Bare(t: Tree, root: RelPath, p: RelPath) {
    p in Below(t, root) && forall q | q in Below(t, root) :: !(p < q)
  }

  lemma BareExists(t: Tree, root: RelPath)
    requires Below(t, root) != {}
    ensures exists p :: Bare(t, root, p)
  {
    LongestExists(Below(t, root));
    var p :| p in Below(t, root) && forall q | q in Below(t, root) :: |q| <= |p|;
    assert Bare(t, root, p);
  }

  lemma BareRemovalKeepsClosed(t: Tree, root: RelPath, p: RelPath)
    requires Closed(t) && Bare(t, root, p)
    ensures Closed(t - {p})
  {
    forall q ensures Rooted(t - {p}, q) {
      assert Rooted(t, q);
      assert q in t && |q| > 1 && q[..|q| - 1] == p ==> root <= q && q in Below(t, root) && p < q;
    }
  }

  lemma UnlinkKeepsClosed(t: Tree, p: RelPath)
    requires Closed(t) && p in t && t[p] != Dir
    ensures Closed(t - {p})
  {
    forall q ensures Rooted(t - {p}, q) { assert Rooted(t, q); }
  }

  /** Every step took one entry away, and a kill came while entries were left. */
  ghost predicate Spent(start: Tree, t: Tree, budget: nat, left: nat, alive: bool) {
    left <= budget && |t.Keys| + budget == |start.Keys| + left && (!alive ==> left == 0 && t.Keys != {})
  }

  lemma OneEntryLess(t: Tree, p: RelPath)
    requires p in t
    ensures (t - {p}).Keys == t.Keys - {p} && |(t - {p}).Keys| == |t.Keys| - 1
  {
    assert (t - {p}).Keys == t.Keys - {p};
  }

  /** Removes a directory's contents and then itself, in any order that takes children before parents. */
  method RemoveTree(start: Tree, root: RelPath, budget: nat) returns (t: Tree, left: nat, alive: bool)
    requires Closed(start) && root != []
    ensures Closed(t) && Spent(start, t, budget, left, alive)
    ensures forall p | p in t :: p in start && t[p] == start[p]
    ensures forall p | p in start && p !in t :: Under(root, p)
    ensures alive ==> Below(t, root) == {}
  {
    t, left := start, budget;
    while Below(t, root) != {}
      invariant Closed(t) && Spent(start, t, budget, left, true)
      invariant forall p | p in t :: p in start && t[p] == start[p]
      invariant forall p | p in start && p !in t :: Under(root, p)
      decreases |Below(t, root)|
    {
      if left == 0 {
        return t, 0, false;
      }
      left := left - 1;
      var below := Below(t, root);
      BareExists(t, root);
      var p :| p in below && forall q | q in below :: !(p < q);
      BareRemovalKeepsClosed(t, root, p);
      OneEntryLess(t, p);
      t := t - {p};
      assert Below(t, root) == below - {p};
    }
    return t, left, true;
  }
}
