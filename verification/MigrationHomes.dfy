/**
 The directories of the migrated places when no others are set: which home directories keep the
 names of the migration out of each other's way.
 */
module MigrationHomes {
  import opened PathRewrite
  import opened RewriteExact
  import opened MigrationNames
  import J = JsonRewrite

  // ---------------------------------------------------------------- directories in which places nest

  /** Every part of the directory ends in a word character. */
  predicate Plain(base: string) {
    && Absolute(base) && (base != "" ==> LastIsWord(base))
    && (forall i | 0 < i < |base| && base[i] == '/' :: WordChar(base[i - 1]))
  }

  lemma PlainPlacesNest(b: string, l: string, c: string, m: string)
    requires Plain(b) && Plain(c) && AllWord(l) && AllWord(m)
    ensures Nests(At(b, l), At(c, m))
  {
    var x, y := At(b, l), At(c, m);
    forall d: int | CanOverlap(x, y, d) ensures (d == 0 && x == y) || (0 <= d && d + |x| < |y|) || (d <= 0 && |y| - d < |x|) {
      assert x[0] == '/' && y[0] == '/';
      if d > 0 { SlashFollowsWord(c, m, d); }
      if d < 0 { SlashFollowsWord(b, l, -d); }
      assert forall k | 0 <= k < |x| && 0 <= k + d < |y| :: x[k] == y[k + d];
    }
  }

  /** A slash inside such a place follows a word character. */
  lemma SlashFollowsWord(base: string, leaf: string, i: nat)
    requires Plain(base) && AllWord(leaf) && 0 < i < |At(base, leaf)| && At(base, leaf)[i] == '/'
    ensures WordChar(At(base, leaf)[i - 1])
  {
  }

  /** Parts that end in word characters are enough for places to nest. */
  lemma PlainBasesNest(b: Bases)
    requires forall n | n in TableNames(b) && n.Place? :: Plain(n.base)
    ensures PlacesNest(b)
  {
    forall n, m, legacy, legacy' | n in TableNames(b) && m in TableNames(b) && n.Place? && m.Place?
      ensures Nests(Text(n, legacy), Text(m, legacy'))
    {
      LeafIsWord(n.leaf, legacy);
      LeafIsWord(m.leaf, legacy');
      PlainPlacesNest(n.base, Side(LEAVES[n.leaf], legacy), m.base, Side(LEAVES[m.leaf], legacy'));
    }
  }

  /** One directory is the end of another one. */
  predicate IsTail(b: string, c: string) { exists d :: 0 < d <= |c| && b == c[d..] }

  lemma ReachingPlace(b: string, l: string, c: string, m: string, d: nat)
    requires Absolute(b) && Absolute(c) && AllWord(l) && AllWord(m) && d > 0
    requires CanOverlap(At(b, l), At(c, m), d) && d + |At(b, l)| >= |At(c, m)|
    ensures StandsIn(m, b) || IsTail(b, c)
  {
    var x, y := At(b, l), At(c, m);
    assert x[0] == '/' && y[|c|] == '/' && x[|b|] == '/';
    assert forall k | |c| < k < |y| :: y[k] == m[k - |c| - 1];
    assert forall k | |b| < k < |x| :: x[k] == l[k - |b| - 1];
    assert forall i | d <= i < |y| :: y[i] == x[i - d] by { assert forall k | 0 <= k < |x| && 0 <= k + d < |y| :: x[k] == y[k + d]; }
    assert y[d] == '/';
    assert d <= |c|;
    if d + |x| == |y| {
      assert y[|b| + d] == x[|b|] && x[|c| - d] == y[|c|];
      assert |b| == |c| - d && forall k | 0 <= k < |b| :: b[k] == x[k] == y[k + d] == c[k + d];
      assert b == c[d..];
    } else {
      LeafWithin(b, l, c, m, d);
    }
  }

  lemma LeafWithin(b: string, l: string, c: string, m: string, d: nat)
    requires AllWord(l) && AllWord(m) && 0 < d <= |c|
    requires CanOverlap(At(b, l), At(c, m), d) && d + |At(b, l)| > |At(c, m)|
    ensures StandsIn(m, b)
  {
    var x, y, i := At(b, l), At(c, m), |c| + 1 - d;
    assert forall k | |b| < k < |x| :: x[k] == l[k - |b| - 1];
    assert !WordChar(x[|y| - d]);
    assert |y| - d <= |b|;
    assert y[|c|] == '/' && x[|c| - d] == y[|c| - d + d];
    forall k | 0 <= k < |m| ensures b[i..][k] == m[k] { assert x[i + k] == y[(i + k) + d]; }
    assert m <= b[i..];
    assert |b[i..]| > |m| ==> b[i..][|m|] == x[|y| - d];
    assert Matches(WordChar(b[i - 1]), b[i..], m);
  }

  lemma LeafFreePlacesNest(b: string, l: string, c: string, m: string)
    requires Absolute(b) && Absolute(c) && AllWord(l) && AllWord(m)
    requires !StandsIn(m, b) && !StandsIn(l, c) && !IsTail(b, c) && !IsTail(c, b)
    ensures Nests(At(b, l), At(c, m))
  {
    var x, y := At(b, l), At(c, m);
    forall d: int | CanOverlap(x, y, d) ensures (d == 0 && x == y) || (0 <= d && d + |x| < |y|) || (d <= 0 && |y| - d < |x|) {
      if d > 0 && d + |x| >= |y| { ReachingPlace(b, l, c, m, d); }
      if d < 0 && |y| - d >= |x| {
        OverlapIsMutual(x, y, d);
        ReachingPlace(c, m, b, l, -d);
      }
      assert forall k | 0 <= k < |x| && 0 <= k + d < |y| :: x[k] == y[k + d];
    }
  }

  // ---------------------------------------------------------------- the directories used when no others are set

  /** The last word of a name that is matched inside texts. */
  ghost predicate Reserved(name: string) {
    || (exists legacy :: name == Side(DOTTED, legacy))
    || (exists k, legacy :: 0 <= k < |LEAVES| && name == Side(LEAVES[k], legacy))
  }

  lemma ReservedIsWord(name: string)
    requires Reserved(name)
    ensures AllWord(name)
  {
    if legacy :| name == Side(DOTTED, legacy) {
      DottedIsWord(legacy);
    } else {
      var k, legacy :| 0 <= k < |LEAVES| && name == Side(LEAVES[k], legacy);
      LeafIsWord(k, legacy);
    }
  }

  /** No name begins like this. */
  predicate Unlike(s: string) {
    s == "" || (s[0] != 'c' && (s[0] == '.' ==> !(DOTTED.from <= s) && !(DOTTED.to <= s)))
  }

  lemma ReservedNamesBeginAlike(name: string, s: string)
    requires Reserved(name)
    ensures s != "" && Unlike(s) ==> !(name <= s)
  {
    if k, legacy :| 0 <= k < |LEAVES| && name == Side(LEAVES[k], legacy) {
      assert k == 2 ==> Side(DOTTED, legacy) <= name;
    }
  }

  /** One part of a directory in which no name's last word stands. */
  ghost predicate Foreign(part: string) {
    && part != "" && LastIsWord(part) && '/' !in part
    && forall name | Reserved(name) :: !StandsIn(name, part)
  }

  lemma WordIsForeign(part: string)
    requires AllWord(part) && Unlike(part)
    ensures Foreign(part)
  {
    forall name | Reserved(name) ensures !StandsIn(name, part) {
      ReservedNamesBeginAlike(name, part);
      assert part[0..] == part;
    }
  }

  lemma ScopeIsForeign()
    ensures Foreign("@openai")
  {
    var part := "@openai";
    forall name | Reserved(name) ensures !StandsIn(name, part) {
      ReservedIsWord(name);
      ReservedNamesBeginAlike(name, part[1..]);
      assert part[0..] == part && !WordChar(part[0]);
    }
  }

  /** A name that is matched inside texts: its last word, and what stands before it. */
  ghost predicate EndsIn(x: string, front: string, word: string) {
    x == front + word && Reserved(word) && (front == "" || front[|front| - 1] == '/')
  }

  lemma NameEndsIn(n: Name, legacy: bool) returns (front: string, word: string)
    requires PathName(n)
    ensures EndsIn(Text(n, legacy), front, word)
  {
    front := if n.Place? then n.base + "/" else "";
    word := if n.Place? then Side(LEAVES[n.leaf], legacy) else Side(DOTTED, legacy);
  }

  lemma StandsAbove(x: string, d: string, part: string, i: nat)
    requires x != "" && i < |At(d, part)| && Matches(i > 0 && WordChar(At(d, part)[i - 1]), At(d, part)[i..], x) && i + |x| <= |d|
    ensures StandsIn(x, d)
  {
    var s := At(d, part);
    assert s[i..i + |x|] == x;
    assert d[i..i + |x|] == x;
    assert |d[i..]| > |x| ==> d[i..][|x|] == s[i..][|x|];
    assert Matches(i > 0 && WordChar(d[i - 1]), d[i..], x);
  }

  lemma LastWordMatches(front: string, word: string, s: string, i: nat)
    requires word != "" && (front == "" || front[|front| - 1] == '/')
    requires i < |s| && Matches(i > 0 && WordChar(s[i - 1]), s[i..], front + word)
    ensures var j := i + |front|; j < |s| && Matches(j > 0 && WordChar(s[j - 1]), s[j..], word)
  {
    var j := i + |front|;
    assert (front + word)[|front|..] == word;
    assert s[j..] == s[i..][|front|..];
    if front != "" { assert s[i..][|front| - 1] == (front + word)[|front| - 1]; }
    assert |s[j..]| > |word| ==> s[j..][|word|] == s[i..][|front + word|];
  }

  lemma WordStandsInPart(word: string, d: string, part: string, j: nat)
    requires AllWord(word)
    requires j < |At(d, part)| && Matches(j > 0 && WordChar(At(d, part)[j - 1]), At(d, part)[j..], word)
    requires j + |word| > |d|
    ensures StandsIn(word, part)
  {
    var s := At(d, part);
    assert s[|d|] == '/';
    assert forall k | j <= k < j + |word| :: s[k] == s[j..][k - j] == word[k - j];
    assert j > |d|;
    var e := j - |d| - 1;
    assert part[e..] == s[j..];
    assert e > 0 ==> part[e - 1] == s[j - 1];
    assert Matches(e > 0 && WordChar(part[e - 1]), part[e..], word);
  }

  lemma StandsBelow(x: string, d: string, part: string)
    requires x != "" && StandsIn(x, d)
    ensures StandsIn(x, At(d, part))
  {
    var i :| 0 <= i < |d| && Matches(i > 0 && WordChar(d[i - 1]), d[i..], x);
    var s := At(d, part);
    assert s[|d|] == '/';
    assert s[i..] == d[i..] + ("/" + part);
    assert x <= s[i..];
    assert Matches(i > 0 && WordChar(s[i - 1]), s[i..], x);
  }

  lemma StandsInForeign(x: string, front: string, word: string, d: string, part: string)
    requires EndsIn(x, front, word) && Foreign(part) && AllWord(word) && StandsIn(x, At(d, part))
    ensures StandsIn(x, d)
  {
    var i :| 0 <= i < |At(d, part)| && Matches(i > 0 && WordChar(At(d, part)[i - 1]), At(d, part)[i..], x);
    if i + |x| <= |d| {
      StandsAbove(x, d, part, i);
    } else {
      LastWordMatches(front, word, At(d, part), i);
      WordStandsInPart(word, d, part, i + |front|);
    }
  }

  /** Below a foreign part no more names stand than above it. */
  lemma ForeignPart(x: string, front: string, word: string, d: string, part: string)
    requires EndsIn(x, front, word) && Foreign(part)
    ensures StandsIn(x, At(d, part)) <==> StandsIn(x, d)
  {
    ReservedIsWord(word);
    if StandsIn(x, d) { StandsBelow(x, d, part); }
    if StandsIn(x, At(d, part)) { StandsInForeign(x, front, word, d, part); }
  }

  /** The directories used when no other ones are set. */
  function FallbackBases(home: string): Bases {
    var data := At(At(home, ".local"), "share");
    Bases(At(home, ".config"), At(At(home, ".local"), "state"), At(home, ".cache"), data,
          At(At(At(At(home, ".codex-cli-npm"), "lib"), "node_modules"), "@openai"),
          At(At(data, "agent-workspace-linux"), "permissions"))
  }

  lemma HiddenPartsAreForeign()
    ensures Foreign(".config") && Foreign(".local") && Foreign(".cache") && Foreign(".codex-cli-npm")
  {
    WordIsForeign(".config");
    WordIsForeign(".local");
    WordIsForeign(".cache");
    assert DOTTED.from[7] == 'l' && ".codex-cli-npm"[7] == 'c';
    WordIsForeign(".codex-cli-npm");
  }

  lemma ShortPartsAreForeign()
    ensures Foreign("state") && Foreign("share") && Foreign("lib") && Foreign("usr") && Foreign("bin") && Foreign("opt")
  {
    WordIsForeign("state");
    WordIsForeign("share");
    WordIsForeign("lib");
    WordIsForeign("usr");
    WordIsForeign("bin");
    WordIsForeign("opt");
  }

  lemma LongPartsAreForeign()
    ensures Foreign("node_modules") && Foreign("agent-workspace-linux") && Foreign("permissions")
  {
    WordIsForeign("node_modules");
    WordIsForeign("agent-workspace-linux");
    WordIsForeign("permissions");
  }

  lemma SettingsAbove(x: string, front: string, word: string, home: string)
    requires EndsIn(x, front, word)
    ensures var b := FallbackBases(home);
            && (StandsIn(x, b.config) <==> StandsIn(x, home)) && (StandsIn(x, b.cache) <==> StandsIn(x, home))
            && (StandsIn(x, b.state) <==> StandsIn(x, home)) && (StandsIn(x, b.data) <==> StandsIn(x, home))
  {
    HiddenPartsAreForeign();
    ShortPartsAreForeign();
    ForeignPart(x, front, word, home, ".config");
    ForeignPart(x, front, word, home, ".cache");
    ForeignPart(x, front, word, home, ".local");
    ForeignPart(x, front, word, At(home, ".local"), "state");
    ForeignPart(x, front, word, At(home, ".local"), "share");
  }

  lemma QuarantineAbove(x: string, front: string, word: string, home: string)
    requires EndsIn(x, front, word)
    ensures StandsIn(x, FallbackBases(home).quarantine) <==> StandsIn(x, home)
  {
    HiddenPartsAreForeign();
    ShortPartsAreForeign();
    LongPartsAreForeign();
    ScopeIsForeign();
    var npm := At(home, ".codex-cli-npm");
    ForeignPart(x, front, word, home, ".codex-cli-npm");
    ForeignPart(x, front, word, npm, "lib");
    ForeignPart(x, front, word, At(npm, "lib"), "node_modules");
    ForeignPart(x, front, word, At(At(npm, "lib"), "node_modules"), "@openai");
  }

  lemma PermissionsAbove(x: string, front: string, word: string, data: string)
    requires EndsIn(x, front, word)
    ensures StandsIn(x, At(At(data, "agent-workspace-linux"), "permissions")) <==> StandsIn(x, data)
  {
    LongPartsAreForeign();
    ForeignPart(x, front, word, data, "agent-workspace-linux");
    ForeignPart(x, front, word, At(data, "agent-workspace-linux"), "permissions");
  }

  lemma NothingAboveInstalls(x: string, front: string, word: string)
    requires EndsIn(x, front, word)
    ensures !StandsIn(x, "/usr/bin") && !StandsIn(x, "/usr/lib") && !StandsIn(x, "/opt")
  {
    ShortPartsAreForeign();
    ForeignPart(x, front, word, "", "usr");
    ForeignPart(x, front, word, At("", "usr"), "bin");
    ForeignPart(x, front, word, At("", "usr"), "lib");
    ForeignPart(x, front, word, "", "opt");
    assert At(At("", "usr"), "bin") == "/usr/bin" && At(At("", "usr"), "lib") == "/usr/lib" && At("", "opt") == "/opt";
  }

  /** What stands in one of the directories used when no others are set stands in the home directory. */
  lemma StandsInHome(x: string, front: string, word: string, home: string, m: Name)
    requires EndsIn(x, front, word) && m in TableNames(FallbackBases(home)) && m.Place?
    ensures StandsIn(x, m.base) ==> StandsIn(x, home)
  {
    SettingsAbove(x, front, word, home);
    QuarantineAbove(x, front, word, home);
    PermissionsAbove(x, front, word, FallbackBases(home).data);
    NothingAboveInstalls(x, front, word);
  }

  /** The names that do not depend on the home directory. */
  const FIXED: set<Name> := {Place("/usr/bin", 1), Place("/usr/bin", 0), Place("/usr/lib", 0), Place("/opt", 0), Dotted}

  /** Neither a name of the installed product nor the dotted name stands in the home directory, in either form. */
  ghost predicate HomeIsClear(home: string) {
    forall n, legacy | n in FIXED && Known(n) :: !StandsIn(Text(n, legacy), home)
  }

  lemma FallbackIsAbsolute(home: string)
    requires Absolute(home)
    ensures AbsoluteBases(FallbackBases(home))
  {
  }

  lemma LongNameStandsNot(home: string, n: Name, legacy: bool)
    requires n in TableNames(FallbackBases(home)) && !n.Whole? && n !in FIXED
    ensures !StandsIn(Text(n, legacy), home)
  {
    assert n.Place? && |n.base| >= |home|;
  }

  /** The default directories are clear exactly when the home directory is. */
  lemma FallbackIsClear(home: string)
    requires Absolute(home)
    ensures Clear(FallbackBases(home)) <==> HomeIsClear(home)
  {
    var b := FallbackBases(home);
    FallbackIsAbsolute(home);
    if HomeIsClear(home) {
      forall n, m, legacy | n in TableNames(b) && m in TableNames(b) && !n.Whole? && m.Place?
        ensures !StandsIn(Text(n, legacy), m.base)
      {
        NameStandsNot(home, n, m, legacy);
      }
    }
    if Clear(b) {
      forall n, legacy | n in FIXED && Known(n) ensures !StandsIn(Text(n, legacy), home) { FixedStandsNot(home, n, legacy); }
    }
  }

  lemma NameStandsNot(home: string, n: Name, m: Name, legacy: bool)
    requires Absolute(home) && HomeIsClear(home) && !n.Whole? && m.Place?
    requires n in TableNames(FallbackBases(home)) && m in TableNames(FallbackBases(home))
    ensures !StandsIn(Text(n, legacy), m.base)
  {
    TableNamesAreAbsolute(FallbackBases(home), n);
    var front, word := NameEndsIn(n, legacy);
    StandsInHome(Text(n, legacy), front, word, home, m);
    if n !in FIXED { LongNameStandsNot(home, n, legacy); }
  }

  lemma FixedStandsNot(home: string, n: Name, legacy: bool)
    requires Absolute(home) && Clear(FallbackBases(home)) && n in FIXED && Known(n)
    ensures !StandsIn(Text(n, legacy), home)
  {
    var b := FallbackBases(home);
    assert n in TableNames(b);
    TableNamesAreAbsolute(b, n);
    var front, word := NameEndsIn(n, legacy);
    SettingsAbove(Text(n, legacy), front, word, home);
    assert Place(b.config, 0) in TableNames(b);
  }

  // ---------------------------------------------------------------- home directories in which the default places nest

  ghost predicate LeafFree(base: string) {
    forall k, legacy | 0 <= k < |LEAVES| :: !StandsIn(Side(LEAVES[k], legacy), base)
  }

  lemma PlainBelow(d: string, part: string)
    requires Plain(d) && part != "" && LastIsWord(part) && '/' !in part
    ensures Plain(At(d, part))
  {
  }

  lemma SettingsArePlain(home: string)
    requires Plain(home)
    ensures Plain(At(home, ".config")) && Plain(At(home, ".cache")) && Plain(At(home, ".local"))
  {
    PlainBelow(home, ".config");
    PlainBelow(home, ".cache");
    PlainBelow(home, ".local");
  }

  lemma LocalIsPlain(local: string)
    requires Plain(local)
    ensures Plain(At(local, "state")) && Plain(At(local, "share"))
  {
    PlainBelow(local, "state");
    PlainBelow(local, "share");
  }

  lemma PermissionsArePlain(data: string)
    requires Plain(data)
    ensures Plain(At(At(data, "agent-workspace-linux"), "permissions"))
  {
    PlainBelow(data, "agent-workspace-linux");
    PlainBelow(At(data, "agent-workspace-linux"), "permissions");
  }

  lemma FallbackIsPlain(home: string, n: Name)
    requires Plain(home) && n in TableNames(FallbackBases(home)) && n.Place?
    ensures Plain(n.base)
  {
    SettingsArePlain(home);
    LocalIsPlain(At(home, ".local"));
    PermissionsArePlain(FallbackBases(home).data);
    QuarantineIsPlain(home);
    InstallsArePlain();
  }

  lemma InstallsArePlain()
    ensures Plain("/usr/bin") && Plain("/usr/lib") && Plain("/opt")
  {
  }

  lemma QuarantineIsPlain(home: string)
    requires Plain(home)
    ensures Plain(FallbackBases(home).quarantine)
  {
    var npm := At(home, ".codex-cli-npm");
    PlainBelow(home, ".codex-cli-npm");
    PlainBelow(npm, "lib");
    PlainBelow(At(npm, "lib"), "node_modules");
    PlainBelow(At(At(npm, "lib"), "node_modules"), "@openai");
  }

  lemma FallbackIsLeafFree(home: string, n: Name)
    requires LeafFree(home) && n in TableNames(FallbackBases(home)) && n.Place?
    ensures LeafFree(n.base)
  {
    forall k, legacy | 0 <= k < |LEAVES| ensures !StandsIn(Side(LEAVES[k], legacy), n.base) {
      var word := Side(LEAVES[k], legacy);
      assert EndsIn(word, "", word);
      StandsInHome(word, "", word, home, n);
    }
  }

  function LastTwo(base: string): string
    requires |base| >= 2
  {
    base[|base| - 2..]
  }

  lemma EndOfPart(d: string, part: string, end: string)
    requires |part| >= 2 && |end| == 2 && part[|part| - 2] == end[0] && part[|part| - 1] == end[1]
    ensures LastTwo(At(d, part)) == end
  {
  }

  /** Each of the directories has an end of its own. */
  lemma FallbackEnds(home: string)
    ensures var b := FallbackBases(home);
            && LastTwo(b.config) == "ig" && LastTwo(b.state) == "te" && LastTwo(b.cache) == "he" && LastTwo(b.data) == "re"
            && LastTwo(b.quarantine) == "ai" && LastTwo(b.permissions) == "ns"
  {
    EndOfPart(home, ".config", "ig");
    EndOfPart(At(home, ".local"), "state", "te");
    EndOfPart(home, ".cache", "he");
    EndOfPart(At(home, ".local"), "share", "re");
    EndOfPart(At(At(At(home, ".codex-cli-npm"), "lib"), "node_modules"), "@openai", "ai");
    EndOfPart(At(FallbackBases(home).data, "agent-workspace-linux"), "permissions", "ns");
  }

  lemma NoFallbackIsTail(home: string, n: Name, m: Name)
    requires n in TableNames(FallbackBases(home)) && m in TableNames(FallbackBases(home)) && n.Place? && m.Place?
    ensures !IsTail(n.base, m.base)
  {
    FallbackEnds(home);
    assert LastTwo("/usr/bin") == "in" && LastTwo("/usr/lib") == "ib" && LastTwo("/opt") == "pt";
    if IsTail(n.base, m.base) { TailEndsAlike(n.base, m.base); }
  }

  lemma TailEndsAlike(b: string, c: string)
    requires IsTail(b, c) && |b| >= 2 && |c| >= 2
    ensures |b| < |c| && LastTwo(b) == LastTwo(c)
  {
  }

  /** The default places nest if the parts of the home directory end in word characters, or no part of it is named like a place. */
  lemma FallbackNests(home: string)
    requires Absolute(home) && (Plain(home) || LeafFree(home))
    ensures PlacesNest(FallbackBases(home))
  {
    var b := FallbackBases(home);
    if Plain(home) {
      forall n | n in TableNames(b) && n.Place? ensures Plain(n.base) { FallbackIsPlain(home, n); }
      PlainBasesNest(b);
    } else {
      forall n, m, legacy, legacy' | n in TableNames(b) && m in TableNames(b) && n.Place? && m.Place?
        ensures Nests(Text(n, legacy), Text(m, legacy'))
      {
        LeafFreeFallbackNests(home, n, legacy, m, legacy');
      }
    }
  }

  lemma LeafFreeFallbackNests(home: string, n: Name, legacy: bool, m: Name, legacy': bool)
    requires Absolute(home) && LeafFree(home) && n.Place? && m.Place?
    requires n in TableNames(FallbackBases(home)) && m in TableNames(FallbackBases(home))
    ensures Nests(Text(n, legacy), Text(m, legacy'))
  {
    FallbackIsAbsolute(home);
    TableNamesAreAbsolute(FallbackBases(home), n);
    TableNamesAreAbsolute(FallbackBases(home), m);
    LeafIsWord(n.leaf, legacy);
    LeafIsWord(m.leaf, legacy');
    FallbackIsLeafFree(home, n);
    FallbackIsLeafFree(home, m);
    NoFallbackIsTail(home, n, m);
    NoFallbackIsTail(home, m, n);
    LeafFreePlacesNest(n.base, Side(LEAVES[n.leaf], legacy), m.base, Side(LEAVES[m.leaf], legacy'));
  }

  // ---------------------------------------------------------------- some home directories

  lemma FixedIsLong(n: Name, legacy: bool)
    requires n in FIXED && Known(n)
    ensures |Text(n, legacy)| >= 12
    ensures |Text(n, legacy)| <= 13 ==> (n == Place("/opt", 0) && !legacy) || (n == Dotted && legacy)
    ensures Text(n, legacy)[0] == '/' || Text(n, legacy)[0] == '.'
  {
  }

  lemma UserHomeIsClear()
    ensures HomeIsClear("/home/chatgpt")
  {
    var home := "/home/chatgpt";
    forall n, legacy | n in FIXED && Known(n) ensures !StandsIn(Text(n, legacy), home) {
      FixedIsLong(n, legacy);
      assert home[0..] == home && home[1..][0] == 'h';
      assert Text(Place("/opt", 0), false)[1] == 'o';
    }
  }

  lemma ShortHomeIsClear(home: string)
    requires |home| <= 11
    ensures HomeIsClear(home)
  {
    forall n, legacy | n in FIXED && Known(n) ensures !StandsIn(Text(n, legacy), home) { FixedIsLong(n, legacy); }
  }

  lemma NoLetterNoLeaf(home: string)
    requires 'c' !in home && '.' !in home
    ensures LeafFree(home)
  {
    forall k, legacy | 0 <= k < |LEAVES| ensures !StandsIn(Side(LEAVES[k], legacy), home) {
      var leaf := Side(LEAVES[k], legacy);
      assert leaf[0] == 'c' || leaf[0] == '.';
      forall i | 0 <= i < |home| ensures !(leaf <= home[i..]) { assert home[i..][0] == home[i]; }
    }
  }

  lemma HomeSettles(home: string)
    requires Absolute(home) && HomeIsClear(home) && (Plain(home) || LeafFree(home))
    ensures AbsoluteBases(FallbackBases(home)) && PlacesNest(FallbackBases(home)) && Clear(FallbackBases(home))
  {
    FallbackIsAbsolute(home);
    FallbackNests(home);
    FallbackIsClear(home);
  }

  lemma UserHomeIsPlain()
    ensures Plain("/home/chatgpt")
  {
  }

  /** A user called chatgpt: rewriting settles. */
  lemma UserHomeSettles()
    ensures var b := FallbackBases("/home/chatgpt"); AbsoluteBases(b) && PlacesNest(b) && Clear(b)
  {
    UserHomeIsClear();
    UserHomeIsPlain();
    HomeSettles("/home/chatgpt");
  }

  /** A user whose name ends in an accented letter: rewriting settles. */
  lemma AccentedHomeSettles()
    ensures var b := FallbackBases("/home/jos\U{e9}"); AbsoluteBases(b) && PlacesNest(b) && Clear(b)
  {
    ShortHomeIsClear("/home/jos\U{e9}");
    NoLetterNoLeaf("/home/jos\U{e9}");
    HomeSettles("/home/jos\U{e9}");
  }

  // ---------------------------------------------------------------- a home directory for which rewriting does not settle

  /** The home directory is the canonical place of the installed product. */
  ghost predicate InstalledHome(home: string, n: Name) {
    && n in FIXED && n.Place? && Known(n) && home == Text(n, false) && Plain(home)
    && (forall m | m in FIXED && Known(m) :: !StandsIn(Text(m, true), home))
  }

  lemma PlainHomeTable(home: string, pairs: seq<Pair>)
    requires Plain(home) && RewritePairs(FallbackBases(home), true, pairs)
    ensures Table(pairs)
  {
    FallbackIsAbsolute(home);
    FallbackNests(home);
    OwnTable(FallbackBases(home), true, pairs);
  }

  lemma InstalledHomeHoldsNone(home: string, n: Name, pairs: seq<Pair>)
    requires InstalledHome(home, n) && RewritePairs(FallbackBases(home), true, pairs)
    ensures NoneHeld(J.PathPairs(pairs))
  {
    var path := J.PathPairs(pairs);
    forall p, q | p in path && q in path ensures !InFront(p.from, q.to) { LegacyNotInFront(home, n, pairs, p, q); }
  }

  lemma LegacyNotInFront(home: string, n: Name, pairs: seq<Pair>, p: Pair, q: Pair)
    requires InstalledHome(home, n) && RewritePairs(FallbackBases(home), true, pairs)
    requires p in J.PathPairs(pairs) && q in J.PathPairs(pairs)
    ensures !InFront(p.from, q.to)
  {
    FallbackIsAbsolute(home);
    var m := NameOf(FallbackBases(home), true, pairs, p);
    var k := NameOf(FallbackBases(home), true, pairs, q);
    FrontOfName(m, true, k, false);
    if k.Place? { LegacyStandsNot(home, n, m, k); }
  }

  lemma LegacyStandsNot(home: string, n: Name, m: Name, k: Name)
    requires InstalledHome(home, n) && PathName(m) && k.Place?
    requires m in TableNames(FallbackBases(home)) && k in TableNames(FallbackBases(home))
    ensures !StandsIn(Text(m, true), k.base)
  {
    var front, word := NameEndsIn(m, true);
    StandsInHome(Text(m, true), front, word, home, k);
    if m !in FIXED { LongNameStandsNot(home, m, true); }
  }

  /** What is rewritten twice: a path into the configuration of the home directory, under its legacy name. */
  function LegacyPath(n: Name): string
    requires Known(n)
  {
    At(At(Text(n, true), ".config"), "codex-app")
  }

  /** What follows the home directory in a path into its configuration. */
  function Into(part: string, leaf: string): string { "/" + part + "/" + leaf }

  lemma PathInto(d: string, part: string, leaf: string)
    ensures At(At(d, part), leaf) == d + Into(part, leaf)
  {
  }

  lemma HomeParts(home: string, n: Name)
    requires InstalledHome(home, n)
    ensures var p, q, right := PairOf(n, true), PairOf(Place(At(home, ".config"), 0), true), Into(".config", "codex-app");
            && Parts(p, q.from, "", right) && InFront(p.to, q.from) && PutBack(p, "", right) == LegacyPath(n)
  {
    NameIsWellformed(n);
    HomeInFront(home);
    PathInto(home, ".config", "codex-app");
    PathInto(Text(n, true), ".config", "codex-app");
    PartsOf(PairOf(n, true), Into(".config", "codex-app"));
  }

  lemma NameIsWellformed(n: Name)
    requires PathName(n)
    ensures Wellformed(PairOf(n, true))
  {
    TextShape(n, true);
    TextShape(n, false);
    if Text(n, true) == Text(n, false) { TextsDiffer(n, true, n, false); }
  }

  lemma PartsOf(p: Pair, right: string)
    requires Wellformed(p) && right != "" && right[0] == '/'
    ensures Parts(p, p.to + right, "", right) && PutBack(p, "", right) == p.from + right
  {
    assert p.to + right == "" + (p.to + right);
  }

  lemma HomeInFront(home: string)
    requires home != ""
    ensures InFront(home, At(At(home, ".config"), "codex-app"))
  {
    LeafIsWord(0, true);
    assert home[0..] == home;
    assert StandsIn(home, home);
    StandsBelow(home, home, ".config");
    FrontIsDirectory(home, At(home, ".config"), "codex-app");
  }

  /**
   In a home directory that is the installed product's place a path is rewritten twice: the first
   pass makes a legacy place out of it, which only the second one replaces.
   */
  lemma InstalledHomeIsRewrittenTwice(home: string, n: Name, pairs: seq<Pair>)
    requires InstalledHome(home, n) && RewritePairs(FallbackBases(home), true, pairs)
    ensures var path, next := J.PathPairs(pairs), At(At(home, ".config"), "codex-app");
            && RewriteAll(path, LegacyPath(n)) == next && RewriteAll(path, next) != next
            && J.RewriteText(pairs, LegacyPath(n)) == next && J.RewriteText(pairs, next) == At(At(home, ".config"), "chatgpt")
  {
    var b, m := FallbackBases(home), Place(At(home, ".config"), 0);
    PlainHomeTable(home, pairs);
    InstalledHomeHoldsNone(home, n, pairs);
    HomeParts(home, n);
    FallbackIsAbsolute(home);
    assert n in TableNames(b) && m in TableNames(b);
    TableNamesAreAbsolute(b, n);
    InTable(b, true, pairs, n);
    InTable(b, true, pairs, m);
    NameComesAbout(pairs, PairOf(n, true), PairOf(m, true), "", Into(".config", "codex-app"));
    PutBackIsRewrittenTwice(pairs, PairOf(n, true), PairOf(m, true), "", Into(".config", "codex-app"));
    NameIsRewritten(pairs, PairOf(m, true));
  }

  /** In a home directory under the legacy name a string that is a name as a whole is rewritten twice. */
  lemma LegacyHomeIsRewrittenTwice(home: string, n: Name, pairs: seq<Pair>)
    requires n in FIXED && n.Place? && Known(n) && home == Text(n, true) && Plain(home)
    requires RewritePairs(FallbackBases(home), true, pairs)
    ensures var s, t := At(At(home, ".config"), "codex-app"), At(At(home, ".config"), "chatgpt");
            J.RewriteText(pairs, s) == t && J.RewriteText(pairs, t) != t
  {
    var b, m := FallbackBases(home), Place(At(home, ".config"), 0);
    PlainHomeTable(home, pairs);
    FallbackIsAbsolute(home);
    assert n in TableNames(b) && m in TableNames(b);
    TableNamesAreAbsolute(b, n);
    InTable(b, true, pairs, n);
    InTable(b, true, pairs, m);
    assert home[0..] == home && StandsIn(home, home);
    StandsBelow(home, home, ".config");
    FrontOfName(n, true, m, false);
    HeldIsRewrittenAgain(pairs, PairOf(n, true), PairOf(m, true));
  }

  lemma OptHomeIsInstalled()
    ensures InstalledHome("/opt/chatgpt", Place("/opt", 0))
  {
    var home := "/opt/chatgpt";
    forall m | m in FIXED && Known(m) ensures !StandsIn(Text(m, true), home) {
      FixedIsLong(m, true);
      assert home[0..] == home && home[0] == '/';
    }
    assert At("/opt", "chatgpt") == home;
  }

  lemma OptTexts()
    ensures LegacyPath(Place("/opt", 0)) == "/opt/codex-app/.config/codex-app"
    ensures At(At("/opt/chatgpt", ".config"), "codex-app") == "/opt/chatgpt/.config/codex-app"
  {
    assert At("/opt", "codex-app") == "/opt/codex-app";
  }

  /** An example: the program is installed in `/opt` and its directory serves as home directory. */
  lemma OptHomeIsRewrittenTwice(pairs: seq<Pair>)
    requires RewritePairs(FallbackBases("/opt/chatgpt"), true, pairs)
    ensures var path := J.PathPairs(pairs);
            && RewriteAll(path, "/opt/codex-app/.config/codex-app") == "/opt/chatgpt/.config/codex-app"
            && RewriteAll(path, "/opt/chatgpt/.config/codex-app") != "/opt/chatgpt/.config/codex-app"
  {
    OptHomeIsInstalled();
    InstalledHomeIsRewrittenTwice("/opt/chatgpt", Place("/opt", 0), pairs);
    OptTexts();
  }
}
