/**
 Rewriting a persisted JSON value: keys and whole strings by exact lookup, other strings by
 path rewriting. An object two of whose keys would become equal is refused.
 */
module JsonRewrite {
  import opened Basics
  import opened PathRewrite

  datatype Json = Null | Bool(b: bool) | Number(literal: string) | Text(s: string) | List(items: Items) | Object(members: Members)
  datatype Items = NoItems | Item(head: Json, tail: Items)
  datatype Members = NoMembers | Member(key: string, value: Json, rest: Members)

  predicate IsPath(name: string) { name != "" && (name[0] == '/' || name[0] == '.') }

  function PathPairs(pairs: seq<Pair>): (r: seq<Pair>)
    ensures forall p :: p in r <==> p in pairs && IsPath(p.from)
    ensures NoRepeats(pairs) ==> NoRepeats(r)
  {
    if pairs == [] then []
    else
      var n := |pairs| - 1;
      var rest := PathPairs(pairs[..n]);
      assert forall p :: p in pairs <==> p in pairs[..n] || p == pairs[n];
      if IsPath(pairs[n].from) then rest + [pairs[n]] else rest
  }

  /** The dictionary of the pairs: a later pair for the same name wins. */
  function Exact(pairs: seq<Pair>, name: string): (r: Option<string>)
    ensures r.Some? ==> Pair(name, r.value) in pairs
    ensures r.None? ==> forall p | p in pairs :: p.from != name
  {
    if pairs == [] then None
    else
      var n := |pairs| - 1;
      if pairs[n].from == name then Some(pairs[n].to) else Exact(pairs[..n], name)
  }

  function RewriteKey(pairs: seq<Pair>, key: string): string {
    match Exact(pairs, key)
    case Some(name) => name
    case None => key
  }

  function RewriteText(pairs: seq<Pair>, s: string): string {
    match Exact(pairs, s)
    case Some(name) => name
    case None => RewriteAll(PathPairs(pairs), s)
  }

  /** The rewritten value, or nothing when an object's keys would collide. */
  function RewriteValue(pairs: seq<Pair>, v: Json): Option<Json>
    decreases v
  {
    match v
    case Text(s) => Some(Text(RewriteText(pairs, s)))
    case List(items) =>
      (match RewriteItems(pairs, items) case Some(r) => Some(List(r)) case None => None)
    case Object(members) =>
      (match RewriteMembers(pairs, members, {}) case Some(r) => Some(Object(r)) case None => None)
    case _ => Some(v)
  }

  function RewriteItems(pairs: seq<Pair>, items: Items): Option<Items>
    decreases items
  {
    match items
    case NoItems => Some(NoItems)
    case Item(head, tail) =>
      match RewriteValue(pairs, head)
      case None => None
      case Some(h) => (match RewriteItems(pairs, tail) case Some(t) => Some(Item(h, t)) case None => None)
  }

  function RewriteMembers(pairs: seq<Pair>, members: Members, seen: set<string>): Option<Members>
    decreases members
  {
    match members
    case NoMembers => Some(NoMembers)
    case Member(key, value, rest) =>
      var name := RewriteKey(pairs, key);
      if name in seen then None
      else
        match RewriteValue(pairs, value)
        case None => None
        case Some(v) =>
          match RewriteMembers(pairs, rest, seen + {name})
          case Some(r) => Some(Member(name, v, r))
          case None => None
  }

  // ---------------------------------------------------------------- refusal and shape

  function KeysOf(members: Members): seq<string> {
    match members
    case NoMembers => []
    case Member(key, _, rest) => [key] + KeysOf(rest)
  }

  ghost predicate ClashingKeys(pairs: seq<Pair>, keys: seq<string>) {
    exists i, j :: 0 <= i < j < |keys| && RewriteKey(pairs, keys[i]) == RewriteKey(pairs, keys[j])
  }

  /** Somewhere in the value two keys of one object would become equal. */
  ghost predicate Clashes(pairs: seq<Pair>, v: Json)
    decreases v
  {
    match v
    case List(items) => ItemsClash(pairs, items)
    case Object(members) => ClashingKeys(pairs, KeysOf(members)) || MembersClash(pairs, members)
    case _ => false
  }

  ghost predicate ItemsClash(pairs: seq<Pair>, items: Items)
    decreases items
  {
    items.Item? && (Clashes(pairs, items.head) || ItemsClash(pairs, items.tail))
  }

  ghost predicate MembersClash(pairs: seq<Pair>, members: Members)
    decreases members
  {
    members.Member? && (Clashes(pairs, members.value) || MembersClash(pairs, members.rest))
  }

  /** The value with every key and string blanked out. */
  function Shape(v: Json): Json
    decreases v
  {
    match v
    case Text(_) => Text("")
    case List(items) => List(ItemsShape(items))
    case Object(members) => Object(MembersShape(members))
    case _ => v
  }

  function ItemsShape(items: Items): Items
    decreases items
  {
    match items
    case NoItems => NoItems
    case Item(head, tail) => Item(Shape(head), ItemsShape(tail))
  }

  function MembersShape(members: Members): Members
    decreases members
  {
    match members
    case NoMembers => NoMembers
    case Member(_, value, rest) => Member("", Shape(value), MembersShape(rest))
  }

  /** Rewriting fails exactly when two keys of one object would become equal, and otherwise keeps the shape. */
  lemma {:induction false} FailsExactlyOnClash(pairs: seq<Pair>, v: Json)
    ensures RewriteValue(pairs, v).None? <==> Clashes(pairs, v)
    ensures RewriteValue(pairs, v).Some? ==> Shape(RewriteValue(pairs, v).value) == Shape(v)
    decreases v
  {
    match v
    case List(items) => ItemsFailOnClash(pairs, items);
    case Object(members) => MembersFailOnClash(pairs, members, {});
    case _ =>
  }

  lemma {:induction false} ItemsFailOnClash(pairs: seq<Pair>, items: Items)
    ensures RewriteItems(pairs, items).None? <==> ItemsClash(pairs, items)
    ensures RewriteItems(pairs, items).Some? ==> ItemsShape(RewriteItems(pairs, items).value) == ItemsShape(items)
    decreases items
  {
    if items.Item? {
      FailsExactlyOnClash(pairs, items.head);
      ItemsFailOnClash(pairs, items.tail);
    }
  }

  ghost predicate MeetsSeen(pairs: seq<Pair>, keys: seq<string>, seen: set<string>) {
    exists i :: 0 <= i < |keys| && RewriteKey(pairs, keys[i]) in seen
  }

  lemma ClashAtHead(pairs: seq<Pair>, key: string, keys: seq<string>, seen: set<string>)
    requires RewriteKey(pairs, key) !in seen
    ensures
      ClashingKeys(pairs, [key] + keys) || MeetsSeen(pairs, [key] + keys, seen) <==>
      ClashingKeys(pairs, keys) || MeetsSeen(pairs, keys, seen + {RewriteKey(pairs, key)})
  {
    var all := [key] + keys;
    assert forall i | 0 < i < |all| :: all[i] == keys[i - 1];
    if ClashingKeys(pairs, all) {
      var i, j :| 0 <= i < j < |all| && RewriteKey(pairs, all[i]) == RewriteKey(pairs, all[j]);
      if i == 0 { assert RewriteKey(pairs, keys[j - 1]) in seen + {RewriteKey(pairs, key)}; }
      else { assert RewriteKey(pairs, keys[i - 1]) == RewriteKey(pairs, keys[j - 1]); }
    }
    if ClashingKeys(pairs, keys) {
      var i, j :| 0 <= i < j < |keys| && RewriteKey(pairs, keys[i]) == RewriteKey(pairs, keys[j]);
      assert RewriteKey(pairs, all[i + 1]) == RewriteKey(pairs, all[j + 1]);
    }
    if MeetsSeen(pairs, keys, seen + {RewriteKey(pairs, key)}) {
      var i :| 0 <= i < |keys| && RewriteKey(pairs, keys[i]) in seen + {RewriteKey(pairs, key)};
      assert RewriteKey(pairs, all[i + 1]) == RewriteKey(pairs, keys[i]);
      assert RewriteKey(pairs, all[0]) == RewriteKey(pairs, key);
    }
  }

  lemma {:induction false} MembersFailOnClash(pairs: seq<Pair>, members: Members, seen: set<string>)
    ensures RewriteMembers(pairs, members, seen).None? <==>
            ClashingKeys(pairs, KeysOf(members)) || MeetsSeen(pairs, KeysOf(members), seen) || MembersClash(pairs, members)
    ensures RewriteMembers(pairs, members, seen).Some? ==> MembersShape(RewriteMembers(pairs, members, seen).value) == MembersShape(members)
    decreases members
  {
    match members
    case NoMembers =>
      assert KeysOf(members) == [];
    case Member(key, value, rest) =>
      var name := RewriteKey(pairs, key);
      if name in seen {
        assert RewriteKey(pairs, KeysOf(members)[0]) in seen;
      } else {
        ClashAtHead(pairs, key, KeysOf(rest), seen);
        FailsExactlyOnClash(pairs, value);
        MembersFailOnClash(pairs, rest, seen + {name});
      }
  }

  // ---------------------------------------------------------------- values that a reader yields

  predicate DistinctKeys(members: Members) {
    members.Member? ==> members.key !in KeysOf(members.rest) && DistinctKeys(members.rest)
  }

  /** What reading a document can yield: objects with distinct keys, and numbers in the printer's own notation. */
  predicate WellFormed(numeral: string -> bool, v: Json)
    decreases v
  {
    match v
    case Number(literal) => numeral(literal)
    case List(items) => ItemsWellFormed(numeral, items)
    case Object(members) => DistinctKeys(members) && MembersWellFormed(numeral, members)
    case _ => true
  }

  predicate ItemsWellFormed(numeral: string -> bool, items: Items)
    decreases items
  {
    items.Item? ==> WellFormed(numeral, items.head) && ItemsWellFormed(numeral, items.tail)
  }

  predicate MembersWellFormed(numeral: string -> bool, members: Members)
    decreases members
  {
    members.Member? ==> WellFormed(numeral, members.value) && MembersWellFormed(numeral, members.rest)
  }

  /** Rewriting yields only values that a reader can yield too. */
  lemma {:induction false} RewritingKeepsWellFormed(pairs: seq<Pair>, numeral: string -> bool, v: Json)
    requires WellFormed(numeral, v) && RewriteValue(pairs, v).Some?
    ensures WellFormed(numeral, RewriteValue(pairs, v).value)
    decreases v
  {
    match v
    case List(items) => ItemsKeepWellFormed(pairs, numeral, items);
    case Object(members) => MembersKeepWellFormed(pairs, numeral, members, {});
    case _ =>
  }

  lemma {:induction false} ItemsKeepWellFormed(pairs: seq<Pair>, numeral: string -> bool, items: Items)
    requires ItemsWellFormed(numeral, items) && RewriteItems(pairs, items).Some?
    ensures ItemsWellFormed(numeral, RewriteItems(pairs, items).value)
    decreases items
  {
    if items.Item? {
      RewritingKeepsWellFormed(pairs, numeral, items.head);
      ItemsKeepWellFormed(pairs, numeral, items.tail);
    }
  }

  lemma {:induction false} MembersKeepWellFormed(pairs: seq<Pair>, numeral: string -> bool, members: Members, seen: set<string>)
    requires MembersWellFormed(numeral, members) && RewriteMembers(pairs, members, seen).Some?
    ensures var r := RewriteMembers(pairs, members, seen).value;
            DistinctKeys(r) && MembersWellFormed(numeral, r) && forall k | k in KeysOf(r) :: k !in seen
    decreases members
  {
    if members.Member? {
      RewritingKeepsWellFormed(pairs, numeral, members.value);
      MembersKeepWellFormed(pairs, numeral, members.rest, seen + {RewriteKey(pairs, members.key)});
    }
  }

  // ---------------------------------------------------------------- single strings

  /**
   Names that do not interfere. Path names are matched inside strings, the others only as
   whole strings, so the others may well end a path name.
   */
  ghost predicate Compatible(pairs: seq<Pair>) {
    var path := PathPairs(pairs);
    && NoRepeats(pairs) && AllWellformed(pairs) && Apart(path)
    && (forall p, q | p in pairs && q in pairs && p != q :: p.from != q.from)
    && (forall p, q | p in pairs && q in pairs :: p.from != q.to)
    && (forall r, p | r in path && p in pairs :: Unstarted(r.from, p.to))
    && (forall r, q | r in path && q in pairs && q !in path :: Unstarted(r.from, q.from) && Unreached(q.from, r.to))
  }

  /** With the names distinct the dictionary is exactly the list of pairs. */
  lemma ExactIsMembership(pairs: seq<Pair>, name: string, to: string)
    requires forall p, q | p in pairs && q in pairs && p != q :: p.from != q.from
    ensures Exact(pairs, name) == Some(to) <==> Pair(name, to) in pairs
  {
    match Exact(pairs, name)
    case None =>
    case Some(other) => assert Pair(name, other) in pairs;
  }

  lemma ReplacementIsNoName(pairs: seq<Pair>, p: Pair)
    requires Compatible(pairs) && p in pairs
    ensures Exact(pairs, p.to).None?
  {
    assert forall t: string :: Pair(p.to, t) !in pairs;
  }

  lemma {:induction false} ReplacementIsKept(path: seq<Pair>, n: string)
    requires n != "" && forall p | p in path :: p.from != "" && Unstarted(p.from, n)
    ensures RewriteAll(path, n) == n
  {
    if path != [] {
      var last := |path| - 1;
      ReplacementIsKept(path[..last], n);
      UnstartedNoMatch(path[last].from, n, "");
      ScanPast(path[last], false, n, "");
      assert n + "" == n;
    }
  }

  /** A rewritten text that equals a name with which no scan interferes was that name before. */
  lemma ResultIsName(path: seq<Pair>, n: string, s: string)
    requires AllWellformed(path) && n != "" && Simultaneous(path, false, s) == n
    requires s != "" && FirstMatch(path, false, s).None?
    requires forall r, d: int | r in path && d < 0 :: !CanOverlap(n, r.to, d)
    requires forall r | r in path :: Unstarted(r.from, n)
    ensures s == n
  {
    assert Matches(false, n, n);
    NoNewMatch(path, n, false, s);
    var rest := s[|n|..];
    assert s == n + rest;
    forall r | r in path ensures NoMatchIn(r.from, false, n, rest) { UnstartedNoMatch(r.from, n, rest); }
    KeepsWhole(path, false, n, rest);
    FirstClass(path, LastIsWord(n), rest);
  }

  /** Path rewriting does not produce a name from a text that is none. */
  lemma RewritingMakesNoName(pairs: seq<Pair>, q: Pair, s: string)
    requires Compatible(pairs) && q in pairs && Exact(pairs, s).None?
    ensures RewriteAll(PathPairs(pairs), s) != q.from
  {
    var path := PathPairs(pairs);
    FoldIsSimultaneous(path, s);
    if s != "" && Simultaneous(path, false, s) == q.from {
      match FirstMatch(path, false, s)
      case Some(r) =>
        BehindMatch(path, false, s, r.from);
        assert Matches(false, q.from, r.to) && Matches(false, q.from, q.from);
        assert !CanOverlap(q.from, r.to, 0) by {
          if q in path { assert Disjoint(q.from, r.to); } else { assert Unreached(q.from, r.to); }
        }
        SamePlaceOverlaps(q.from, r.to, false, q.from);
      case None =>
        if q in path {
          NameFoundAgain(path, q, s);
        } else {
          forall r, d: int | r in path && d < 0 ensures !CanOverlap(q.from, r.to, d) { assert Unreached(q.from, r.to); }
          ResultIsName(path, q.from, s);
        }
    }
  }

  lemma NameFoundAgain(path: seq<Pair>, q: Pair, s: string)
    requires Apart(path) && q in path && s != "" && FirstMatch(path, false, s).None?
    ensures Simultaneous(path, false, s) != q.from
  {
    if Simultaneous(path, false, s) == q.from {
      assert Matches(false, q.from, q.from);
      NoNewMatch(path, q.from, false, s);
    }
  }

  lemma TextSettles(pairs: seq<Pair>, s: string)
    requires Compatible(pairs)
    ensures RewriteText(pairs, RewriteText(pairs, s)) == RewriteText(pairs, s)
  {
    var path := PathPairs(pairs);
    match Exact(pairs, s)
    case Some(name) =>
      ReplacementIsNoName(pairs, Pair(s, name));
      assert Wellformed(Pair(s, name));
      ReplacementIsKept(path, name);
    case None =>
      var r := RewriteAll(path, s);
      if Exact(pairs, r).Some? { RewritingMakesNoName(pairs, Pair(r, Exact(pairs, r).value), s); }
      RewritingIsIdempotent(path, s);
  }

  lemma KeySettles(pairs: seq<Pair>, key: string)
    requires Compatible(pairs)
    ensures RewriteKey(pairs, RewriteKey(pairs, key)) == RewriteKey(pairs, key)
  {
    if Exact(pairs, key).Some? { ReplacementIsNoName(pairs, Pair(key, Exact(pairs, key).value)); }
  }

  // ---------------------------------------------------------------- idempotence

  /** Rewriting a rewritten value succeeds and changes nothing. */
  lemma {:induction false} JsonRewritingIsIdempotent(pairs: seq<Pair>, v: Json)
    requires Compatible(pairs) && RewriteValue(pairs, v).Some?
    ensures RewriteValue(pairs, RewriteValue(pairs, v).value) == RewriteValue(pairs, v)
    decreases v
  {
    match v
    case Text(s) => TextSettles(pairs, s);
    case List(items) => ItemsIdempotent(pairs, items);
    case Object(members) => MembersIdempotent(pairs, members, {});
    case _ =>
  }

  lemma {:induction false} ItemsIdempotent(pairs: seq<Pair>, items: Items)
    requires Compatible(pairs) && RewriteItems(pairs, items).Some?
    ensures RewriteItems(pairs, RewriteItems(pairs, items).value) == RewriteItems(pairs, items)
    decreases items
  {
    if items.Item? {
      JsonRewritingIsIdempotent(pairs, items.head);
      ItemsIdempotent(pairs, items.tail);
    }
  }

  lemma {:induction false} MembersIdempotent(pairs: seq<Pair>, members: Members, seen: set<string>)
    requires Compatible(pairs) && RewriteMembers(pairs, members, seen).Some?
    ensures RewriteMembers(pairs, RewriteMembers(pairs, members, seen).value, seen) == RewriteMembers(pairs, members, seen)
    decreases members
  {
    if members.Member? {
      KeySettles(pairs, members.key);
      JsonRewritingIsIdempotent(pairs, members.value);
      MembersIdempotent(pairs, members.rest, seen + {RewriteKey(pairs, members.key)});
    }
  }

  // ---------------------------------------------------------------- and back again

  /** The pairs of a migration: names that do not interfere in either direction, a path name replaced by a path name. */
  ghost predicate TwoWay(pairs: seq<Pair>) {
    var path := PathPairs(pairs);
    && Compatible(pairs) && ApartBothWays(path)
    && (forall p | p in pairs :: IsPath(p.from) == IsPath(p.to))
    && (forall p, q | p in pairs && q in pairs && p != q :: p.to != q.to)
    && (forall r, q | r in path && q in pairs && q !in path :: Unreached(q.to, r.to))
  }

  /** The pairs of the opposite direction, in whatever order they are sorted there. */
  ghost predicate Opposite(pairs: seq<Pair>, back: seq<Pair>) {
    NoRepeats(back) && forall p :: p in back <==> p in Reversed(pairs)
  }

  ghost predicate TextFree(pairs: seq<Pair>, s: string) {
    (forall p | p in pairs :: s != p.to) && FreeOf(PathPairs(pairs), false, s)
  }

  /** The value holds no replacement name: as a key, as a whole string, or at word boundaries in a string. */
  ghost predicate Free(pairs: seq<Pair>, v: Json)
    decreases v
  {
    match v
    case Text(s) => TextFree(pairs, s)
    case List(items) => ItemsFree(pairs, items)
    case Object(members) => MembersFree(pairs, members) && DistinctKeys(members)
    case _ => true
  }

  ghost predicate ItemsFree(pairs: seq<Pair>, items: Items)
    decreases items
  {
    items.Item? ==> Free(pairs, items.head) && ItemsFree(pairs, items.tail)
  }

  ghost predicate MembersFree(pairs: seq<Pair>, members: Members)
    decreases members
  {
    members.Member? ==>
      (forall p | p in pairs :: members.key != p.to) && Free(pairs, members.value) && MembersFree(pairs, members.rest)
  }

  lemma OppositePaths(pairs: seq<Pair>, back: seq<Pair>)
    requires TwoWay(pairs) && Opposite(pairs, back)
    ensures Opposite(PathPairs(pairs), PathPairs(back))
  {
    var path, backPath := PathPairs(pairs), PathPairs(back);
    ReversedPairs(pairs);
    ReversedPairs(path);
    forall p ensures p in backPath <==> p in Reversed(path) {
      var q := Pair(p.to, p.from);
      assert p in Reversed(pairs) <==> q in pairs;
      assert p in Reversed(path) <==> q in path;
    }
  }

  lemma BackIsMembership(pairs: seq<Pair>, back: seq<Pair>, p: Pair)
    requires TwoWay(pairs) && Opposite(pairs, back) && p in pairs
    ensures Exact(back, p.to) == Some(p.from)
  {
    ReversedPairs(pairs);
    assert Pair(p.to, p.from) in back;
    forall a, b | a in back && b in back && a != b ensures a.from != b.from {
      assert Pair(a.to, a.from) in pairs && Pair(b.to, b.from) in pairs;
    }
    ExactIsMembership(back, p.to, p.from);
  }

  lemma ReplacementClear(pairs: seq<Pair>, q: Pair, r: Pair)
    requires TwoWay(pairs) && q in pairs && r in PathPairs(pairs)
    ensures forall d: int | d < 0 :: !CanOverlap(q.to, r.to, d)
    ensures q != r ==> !CanOverlap(q.to, r.to, 0)
  {
    if q in PathPairs(pairs) {
      if q != r { assert Disjoint(q.to, r.to); } else { assert SelfDisjoint(q.to); }
    } else {
      assert Unreached(q.to, r.to);
    }
  }

  /** A text of which a single replacement is left was a single name. */
  lemma WholeMatch(path: seq<Pair>, r: Pair, s: string)
    requires AllWellformed(path) && s != "" && FirstMatch(path, false, s) == Some(r) && Simultaneous(path, false, s) == r.to
    ensures s == r.from
  {
    BehindMatch(path, false, s, r.from);
    FirstClass(path, LastIsWord(r.from), s[|r.from|..]);
  }

  /** Path rewriting of a text free of replacements does not produce a replacement as a whole. */
  lemma RewritingMakesNoReplacement(pairs: seq<Pair>, q: Pair, s: string)
    requires TwoWay(pairs) && q in pairs && Exact(pairs, s).None? && TextFree(pairs, s)
    ensures RewriteAll(PathPairs(pairs), s) != q.to
  {
    var path := PathPairs(pairs);
    FoldIsSimultaneous(path, s);
    if s != "" && Simultaneous(path, false, s) == q.to {
      match FirstMatch(path, false, s)
      case Some(r) =>
        BehindMatch(path, false, s, r.from);
        assert Matches(false, q.to, r.to) && Matches(false, q.to, q.to);
        SamePlaceOverlaps(q.to, r.to, false, q.to);
        ReplacementClear(pairs, q, r);
        assert q == r;
        WholeMatch(path, r, s);
      case None =>
        forall r, d: int | r in path && d < 0 ensures !CanOverlap(q.to, r.to, d) { ReplacementClear(pairs, q, r); }
        ResultIsName(path, q.to, s);
    }
  }

  lemma TextUndone(pairs: seq<Pair>, back: seq<Pair>, s: string)
    requires TwoWay(pairs) && Opposite(pairs, back) && TextFree(pairs, s)
    ensures RewriteText(back, RewriteText(pairs, s)) == s
  {
    match Exact(pairs, s)
    case Some(name) => BackIsMembership(pairs, back, Pair(s, name));
    case None =>
      var r := RewriteAll(PathPairs(pairs), s);
      ReversedPairs(pairs);
      if Exact(back, r).Some? {
        var q := Pair(Exact(back, r).value, r);
        assert q in pairs;
        RewritingMakesNoReplacement(pairs, q, s);
      }
      OppositePaths(pairs, back);
      ReverseUndoesForward(PathPairs(pairs), PathPairs(back), s);
  }

  lemma KeyUndone(pairs: seq<Pair>, back: seq<Pair>, key: string)
    requires TwoWay(pairs) && Opposite(pairs, back) && forall p | p in pairs :: key != p.to
    ensures RewriteKey(back, RewriteKey(pairs, key)) == key
  {
    ReversedPairs(pairs);
    match Exact(pairs, key)
    case Some(name) => BackIsMembership(pairs, back, Pair(key, name));
    case None =>
      assert forall t: string :: Pair(key, t) in back ==> Pair(t, key) in pairs;
  }

  /** Reverse after forward restores every value that holds no replacement name. */
  lemma {:induction false} JsonReverseUndoesForward(pairs: seq<Pair>, back: seq<Pair>, v: Json)
    requires TwoWay(pairs) && Opposite(pairs, back) && Free(pairs, v) && RewriteValue(pairs, v).Some?
    ensures RewriteValue(back, RewriteValue(pairs, v).value) == Some(v)
    decreases v
  {
    match v
    case Text(s) => TextUndone(pairs, back, s);
    case List(items) => ItemsUndone(pairs, back, items);
    case Object(members) => MembersUndone(pairs, back, members, {}, {});
    case _ =>
  }

  lemma {:induction false} ItemsUndone(pairs: seq<Pair>, back: seq<Pair>, items: Items)
    requires TwoWay(pairs) && Opposite(pairs, back) && ItemsFree(pairs, items) && RewriteItems(pairs, items).Some?
    ensures RewriteItems(back, RewriteItems(pairs, items).value) == Some(items)
    decreases items
  {
    if items.Item? {
      JsonReverseUndoesForward(pairs, back, items.head);
      ItemsUndone(pairs, back, items.tail);
    }
  }

  lemma {:induction false} MembersUndone(pairs: seq<Pair>, back: seq<Pair>, members: Members, seen: set<string>, keys: set<string>)
    requires TwoWay(pairs) && Opposite(pairs, back) && MembersFree(pairs, members) && DistinctKeys(members)
    requires RewriteMembers(pairs, members, seen).Some?
    requires forall k | k in KeysOf(members) :: k !in keys
    ensures RewriteMembers(back, RewriteMembers(pairs, members, seen).value, keys) == Some(members)
    decreases members
  {
    if members.Member? {
      assert members.key == KeysOf(members)[0];
      KeyUndone(pairs, back, members.key);
      JsonReverseUndoesForward(pairs, back, members.value);
      assert forall k | k in KeysOf(members.rest) :: k in KeysOf(members);
      MembersUndone(pairs, back, members.rest, seen + {RewriteKey(pairs, members.key)}, keys + {members.key});
    }
  }
}

