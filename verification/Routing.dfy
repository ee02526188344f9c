/** Pool selection of pool_manager.rs, and why a selected name still names a pool after any reloads. */
module Routing {
  import opened Wrappers

  /** A pool as configured; started says whether its workers could be started. */
  datatype PoolConfig = PoolConfig(name: string, patterns: seq<string>, headers: map<string, string>, started: bool)

  datatype Rule = Rule(poolName: string, patterns: seq<string>, headers: map<string, string>)

  /** A request header; the value is None when it is no visible ASCII text. */
  datatype Header = Header(name: string, value: Option<string>)

  function RuleOf(c: PoolConfig): Rule {
    Rule(c.name, c.patterns, c.headers)
  }

  // ----- Matching -----

  function LowerChar(c: char): char {
    if 'A' <= c <= 'Z' then c + ' ' else c
  }

  function Lower(s: string): string {
    if s == [] then [] else [LowerChar(s[0])] + Lower(s[1..])
  }

  /** The characters of property White_Space. */
  predicate IsSpace(c: char) {
    || c == ' ' || '\t' <= c <= '\r' || c == '\U{0085}' || c == '\U{00A0}' || c == '\U{1680}'
    || '\U{2000}' <= c <= '\U{200A}' || c == '\U{2028}' || c == '\U{2029}' || c == '\U{202F}' || c == '\U{205F}'
    || c == '\U{3000}'
  }

  function Trim(s: string): string {
    if s == [] then []
    else if IsSpace(s[0]) then Trim(s[1..])
    else if IsSpace(s[|s| - 1]) then Trim(s[..|s| - 1])
    else s
  }

  predicate EndsWith(s: string, suffix: string) {
    |suffix| <= |s| && s[|s| - |suffix|..] == suffix
  }

  /** Both sides trimmed and lower-cased. */
  predicate MatchValue(a: string, e: string) {
    if e == "*" || a == e then true
    else if EndsWith(e, "*") then e[..|e| - 1] <= a
    else if "*" <= e then EndsWith(a, e[1..])
    else false
  }

  /** The lower-casing of all Unicode text is a parameter; what is used of it is Lowering. */
  predicate MatchHeaderValue(lowerCase: string -> string, actual: string, expectedPattern: string) {
    MatchValue(lowerCase(Trim(actual)), lowerCase(Trim(expectedPattern)))
  }

  /** Lower-casing twice is lower-casing once, and white space keeps its place. */
  ghost predicate Lowering(lowerCase: string -> string) {
    forall s :: lowerCase(lowerCase(s)) == lowerCase(s) && Trim(lowerCase(s)) == lowerCase(Trim(s))
  }

  lemma {:induction false} LowerTwice(s: string)
    ensures Lower(Lower(s)) == Lower(s) && |Lower(s)| == |s|
  {
    if s != [] {
      LowerTwice(s[1..]);
      assert Lower(s)[1..] == Lower(s[1..]);
    }
  }

  lemma {:induction false} LowerOfSlice(s: string, k: nat)
    requires k <= |s|
    ensures |Lower(s)| == |s| && Lower(s)[..k] == Lower(s[..k])
    ensures forall i :: 0 <= i < |s| ==> Lower(s)[i] == LowerChar(s[i])
  {
    if s != [] {
      LowerOfSlice(s[1..], if k > 0 then k - 1 else 0);
      assert Lower(s)[1..] == Lower(s[1..]);
      if k > 0 {
        assert s[..k][1..] == s[1..][..k - 1];
      }
    }
  }

  lemma {:induction false} TrimOfLower(s: string)
    ensures Trim(Lower(s)) == Lower(Trim(s))
    decreases |s|
  {
    if s != [] {
      LowerOfSlice(s, |s| - 1);
      if IsSpace(s[0]) {
        TrimOfLower(s[1..]);
        assert Lower(s)[1..] == Lower(s[1..]);
      } else if IsSpace(s[|s| - 1]) {
        TrimOfLower(s[..|s| - 1]);
      }
    }
  }

  // ----- Text -----

  lemma WhiteSpace(c: char)
    ensures IsSpace(c) <==>
            var n := c as int;
            || 9 <= n <= 13 || n == 0x20 || n == 0x85 || n == 0xA0 || n == 0x1680 || 0x2000 <= n <= 0x200A
            || n == 0x2028 || n == 0x2029 || n == 0x202F || n == 0x205F || n == 0x3000
  {
  }

  lemma LetterCase(c: char)
    ensures LowerChar(c) as int == c as int + (if 0x41 <= c as int <= 0x5A then 32 else 0)
  {
  }

  predicate AllSpace(s: string) {
    forall i :: 0 <= i < |s| ==> IsSpace(s[i])
  }

  lemma TrimFront(s: string)
    requires s != [] && IsSpace(s[0])
    ensures Trim(s) == Trim(s[1..])
  {
    hide IsSpace;
  }

  lemma TrimBack(s: string)
    requires s != [] && !IsSpace(s[0])
    ensures Trim(s) == if IsSpace(s[|s| - 1]) then Trim(s[..|s| - 1]) else s
  {
    hide IsSpace;
  }

  lemma Ends(s: string)
    requires s != []
    ensures s == [s[0]] + s[1..] && s == s[..|s| - 1] + [s[|s| - 1]]
  {
  }

  lemma Between(c: string, before: string, middle: string, behind: string, d: string)
    ensures c + (before + middle + behind) == (c + before) + middle + behind
    ensures (before + middle + behind) + d == before + middle + (behind + d)
  {
  }

  lemma SpaceAdded(c: char, s: string)
    requires IsSpace(c) && AllSpace(s)
    ensures AllSpace([c] + s) && AllSpace(s + [c])
  {
    hide IsSpace;
  }

  lemma NoSpace()
    ensures AllSpace([])
  {
  }

  /** Trimming takes white space off both ends, and all of it. */
  lemma {:induction false} TrimExactly(s: string) returns (before: string, behind: string)
    ensures s == before + Trim(s) + behind && AllSpace(before) && AllSpace(behind)
    ensures Trim(s) != [] ==> !IsSpace(Trim(s)[0]) && !IsSpace(Trim(s)[|Trim(s)| - 1])
    decreases |s|
  {
    hide IsSpace, Trim, AllSpace;
    before, behind := [], [];
    NoSpace();
    if s != [] {
      Ends(s);
      if IsSpace(s[0]) {
        TrimFront(s);
        before, behind := TrimExactly(s[1..]);
        Between([s[0]], before, Trim(s), behind, []);
        SpaceAdded(s[0], before);
        before := [s[0]] + before;
      } else if IsSpace(s[|s| - 1]) {
        TrimBack(s);
        before, behind := TrimExactly(s[..|s| - 1]);
        Between([], before, Trim(s), behind, [s[|s| - 1]]);
        SpaceAdded(s[|s| - 1], behind);
        behind := behind + [s[|s| - 1]];
      } else {
        TrimBack(s);
      }
    } else {
      TrimNothing();
    }
  }

  lemma TrimNothing()
    ensures Trim([]) == []
  {
  }

  lemma EndsWithExactly(s: string, suffix: string)
    ensures EndsWith(s, suffix) <==> exists before: string :: s == before + suffix
  {
    if EndsWith(s, suffix) {
      assert s == s[..|s| - |suffix|] + suffix;
    }
  }

  lemma NoStarAtEnds(s: string)
    requires '*' !in s
    ensures !EndsWith(s, "*") && !EndsWith(s, "/*") && !("*" <= s) && !("/*" <= s) && s != "/*" && s != "*"
  {
    hide EndsWith;
    if s != [] {
      assert s[0] in s && s[|s| - 1] in s;
      LastOfEnd(s, "*");
    }
    if |s| > 1 {
      assert s[1] in s;
      LastOfEnd(s, "/*");
    }
    assert |s| < 1 ==> !EndsWith(s, "*") by { ShortEnd(s, "*"); }
    assert |s| < 2 ==> !EndsWith(s, "/*") by { ShortEnd(s, "/*"); }
  }

  lemma ShortEnd(s: string, suffix: string)
    ensures |s| < |suffix| ==> !EndsWith(s, suffix)
  {
  }

  lemma PlainValue(a: string, e: string)
    requires '*' !in e
    ensures MatchValue(a, e) <==> a == e
  {
    NoStarAtEnds(e);
    hide EndsWith;
  }

  lemma ValueWithStarBehind(a: string, prefix: string)
    ensures MatchValue(a, prefix + "*") <==> prefix <= a
  {
    var e := prefix + "*";
    assert e[..|e| - 1] == prefix && e[|e| - 1..] == "*";
  }

  lemma ValueWithStarInFront(a: string, suffix: string)
    requires '*' !in suffix && suffix != []
    ensures MatchValue(a, "*" + suffix) <==> EndsWith(a, suffix)
  {
    var e := "*" + suffix;
    assert e[1..] == suffix && e[|e| - 1] == suffix[|suffix| - 1] && suffix[|suffix| - 1] in suffix;
    LastOfEnd(e, "*");
    assert a == e ==> EndsWith(a, suffix);
    hide EndsWith;
  }

  lemma ValueWithStarInside(a: string, prefix: string, suffix: string)
    requires '*' !in prefix && '*' !in suffix && prefix != [] && suffix != []
    ensures MatchValue(a, prefix + "*" + suffix) <==> a == prefix + "*" + suffix
  {
    hide EndsWith;
    var e := prefix + "*" + suffix;
    assert e[0] == prefix[0] && prefix[0] in prefix;
    assert e[|e| - 1] == suffix[|suffix| - 1] && suffix[|suffix| - 1] in suffix;
    LastOfEnd(e, "*");
  }

  /**
   What a rule's value matches, both sides trimmed and lower-cased: without a star exactly itself; with one at the
   end, what starts like it; with one at the front, what ends like it; and a star between texts is no wildcard.
   */
  lemma HeaderValueExactly(lowerCase: string -> string, actual: string, expectedPattern: string,
                           prefix: string, suffix: string)
    requires '*' !in prefix && '*' !in suffix
    ensures var a, e := lowerCase(Trim(actual)), lowerCase(Trim(expectedPattern));
            var matches := MatchHeaderValue(lowerCase, actual, expectedPattern);
            && (e == prefix ==> (matches <==> a == prefix))
            && (e == prefix + "*" ==> (matches <==> prefix <= a))
            && (e == "*" + suffix ==> (matches <==> exists before: string :: a == before + suffix))
            && (prefix != [] && suffix != [] && e == prefix + "*" + suffix ==> (matches <==> a == e))
  {
    hide Trim, EndsWith, MatchValue;
    var a := lowerCase(Trim(actual));
    PlainValue(a, prefix);
    ValueWithStarBehind(a, prefix);
    if suffix != [] {
      ValueWithStarInFront(a, suffix);
    } else {
      ValueWithStarBehind(a, []);
      assert [] + "*" == "*" + suffix && a == a + suffix;
    }
    EndsWithExactly(a, suffix);
    if prefix != [] && suffix != [] {
      ValueWithStarInside(a, prefix, suffix);
    }
  }

  /** A rule's header value is matched without regard to case, wildcards included. */
  lemma ValueMatchIgnoresCase(lowerCase: string -> string, actual: string, expectedPattern: string)
    requires Lowering(lowerCase)
    ensures MatchHeaderValue(lowerCase, lowerCase(actual), lowerCase(expectedPattern)) <==>
            MatchHeaderValue(lowerCase, actual, expectedPattern)
  {
    assert Trim(lowerCase(actual)) == lowerCase(Trim(actual));
    assert Trim(lowerCase(expectedPattern)) == lowerCase(Trim(expectedPattern));
    hide Trim;
  }

  /** The lower-casing of ASCII letters is one. */
  lemma AsciiLowering()
    ensures Lowering(Lower)
  {
    forall s: string
      ensures Lower(Lower(s)) == Lower(s) && Trim(Lower(s)) == Lower(Trim(s))
    {
      LowerTwice(s);
      TrimOfLower(s);
    }
  }

  /** The branches in the order of the source; the one for a trailing slash and star cannot be reached. */
  predicate MatchPattern(path: string, pattern: string) {
    if path == pattern then true
    else if pattern == "/*" then true
    else if EndsWith(pattern, "*") then pattern[..|pattern| - 1] <= path
    else if EndsWith(pattern, "/*") then pattern[..|pattern| - 2] <= path
    else if "/*" <= pattern then EndsWith(path, pattern[2..])
    else false
  }

  /** A path matched by one star: the text before it, anything, the text behind it. */
  predicate Glob(path: string, prefix: string, suffix: string) {
    |prefix| + |suffix| <= |path| && prefix <= path && EndsWith(path, suffix)
  }

  predicate IsPath(path: string) {
    path != [] && path[0] == '/'
  }

  lemma StarIsNotSecond(prefix: string, suffix: string)
    requires '*' !in prefix && prefix != "/"
    ensures !("/*" <= prefix + "*" + suffix)
  {
    var pattern := prefix + "*" + suffix;
    if prefix == [] {
      assert pattern[0] == '*';
    } else if |prefix| == 1 {
      assert prefix == [prefix[0]] && pattern[0] == prefix[0];
    } else {
      assert pattern[1] == prefix[1] && prefix[1] in prefix;
    }
  }

  lemma LastOfEnd(s: string, suffix: string)
    requires suffix != [] && |s| >= |suffix|
    ensures EndsWith(s, suffix) ==> s[|s| - 1] == suffix[|suffix| - 1]
  {
  }

  /** A pattern with text behind its star ends neither in a star nor in a slash and a star. */
  lemma StarInside(prefix: string, suffix: string)
    requires suffix != [] && '*' !in suffix
    ensures var pattern := prefix + "*" + suffix;
            !EndsWith(pattern, "*") && !EndsWith(pattern, "/*") && pattern != "/*"
  {
    var pattern := prefix + "*" + suffix;
    assert pattern[|pattern| - 1] == suffix[|suffix| - 1] && suffix[|suffix| - 1] in suffix;
    hide EndsWith;
    LastOfEnd(pattern, "*");
    LastOfEnd(pattern, "/*");
  }

  /** A pattern without a star matches itself only. */
  lemma PlainPattern(path: string, pattern: string)
    requires '*' !in pattern
    ensures MatchPattern(path, pattern) <==> path == pattern
  {
    NoStarAtEnds(pattern);
    hide EndsWith;
  }

  lemma StarAtEnd(path: string, prefix: string)
    requires IsPath(path)
    ensures MatchPattern(path, prefix + "*") <==> prefix <= path
  {
    var pattern := prefix + "*";
    assert pattern[..|pattern| - 1] == prefix && pattern[|pattern| - 1..] == "*";
    assert pattern == "/*" ==> prefix == [path[0]];
  }

  /** The branch that a pattern with one star comes to. */
  lemma OneStarBranch(path: string, prefix: string, suffix: string)
    requires IsPath(path) && '*' !in prefix && '*' !in suffix
    ensures var matches := MatchPattern(path, prefix + "*" + suffix);
            && (suffix == [] ==> (matches <==> prefix <= path))
            && (suffix != [] && prefix == "/" ==> (matches <==> path == "/*" + suffix || EndsWith(path, suffix)))
            && (suffix != [] && prefix != "/" ==> (matches <==> path == prefix + "*" + suffix))
  {
    hide EndsWith;
    if suffix == [] {
      assert prefix + "*" + suffix == prefix + "*";
      StarAtEnd(path, prefix);
    } else {
      StarInside(prefix, suffix);
      if prefix == "/" {
        assert prefix + "*" + suffix == "/*" + suffix && ("/*" + suffix)[2..] == suffix;
      } else {
        StarIsNotSecond(prefix, suffix);
      }
    }
  }

  predicate StarIsWild(prefix: string, suffix: string) {
    suffix == [] || (prefix == "/" && suffix[0] != '/') || (prefix != [] && prefix[0] != '/')
  }

  /**
   A pattern with one star means what it says, for all paths, exactly when the star stands last, or second behind a
   slash with no other slash next, or when the pattern can match no path anyhow. A star elsewhere is no wildcard.
   */
  lemma OneStarPattern(prefix: string, suffix: string)
    requires '*' !in prefix && '*' !in suffix
    ensures StarIsWild(prefix, suffix) <==>
            forall path :: IsPath(path) ==> (MatchPattern(path, prefix + "*" + suffix) <==> Glob(path, prefix, suffix))
  {
    hide MatchPattern;
    forall path | IsPath(path) && StarIsWild(prefix, suffix)
      ensures MatchPattern(path, prefix + "*" + suffix) <==> Glob(path, prefix, suffix)
    {
      OneStarBranch(path, prefix, suffix);
      if suffix != [] && prefix == "/" && |path| == |suffix| {
        assert path == suffix <==> EndsWith(path, suffix);
      }
    }
    if suffix != [] && prefix == "/" && suffix[0] == '/' {
      OneStarBranch(suffix, prefix, suffix);
      assert EndsWith(suffix, suffix) && !Glob(suffix, prefix, suffix);
    } else if suffix != [] && prefix != "/" && (prefix == [] || prefix[0] == '/') {
      var path := prefix + "/" + suffix;
      assert path[|prefix|] == '/' && (prefix + "*" + suffix)[|prefix|] == '*';
      OneStarBranch(path, prefix, suffix);
      assert Glob(path, prefix, suffix) && IsPath(path);
    }
  }

  predicate HeaderMatches(lowerCase: string -> string, h: Header, key: string, expected: string) {
    Lower(h.name) == Lower(key) && h.value.Some? && MatchHeaderValue(lowerCase, h.value.value, expected)
  }

  /** Names are compared letter by letter without regard to ASCII case, and a value that is no text never matches. */
  lemma HeaderMatchesExactly(lowerCase: string -> string, h: Header, key: string, expected: string)
    ensures HeaderMatches(lowerCase, h, key, expected) <==>
            && |h.name| == |key| && (forall i :: 0 <= i < |key| ==> LowerChar(h.name[i]) == LowerChar(key[i]))
            && h.value.Some? && MatchHeaderValue(lowerCase, h.value.value, expected)
  {
    hide MatchHeaderValue, LowerChar;
    LowerOfSlice(h.name, 0);
    LowerOfSlice(key, 0);
    assert Lower(h.name) == Lower(key) <==>
           |h.name| == |key| && forall i :: 0 <= i < |key| ==> Lower(h.name)[i] == Lower(key)[i];
  }

  /** Some header of the request matches some header of the rule: a question of sets, not of order. */
  predicate MatchHeaders(lowerCase: string -> string, request: seq<Header>, rule: map<string, string>) {
    exists key :: key in rule && exists i :: 0 <= i < |request| && HeaderMatches(lowerCase, request[i], key, rule[key])
  }

  /** match_headers, walking the rule's map in whatever order it yields its keys. */
  method FindHeaderMatch(lowerCase: string -> string, request: seq<Header>, rule: map<string, string>,
                         order: seq<string>) returns (found: bool)
    requires forall key :: key in order <==> key in rule
    ensures found == MatchHeaders(lowerCase, request, rule)
    ensures found <==> exists key, i :: key in rule && 0 <= i < |request|
                                        && HeaderMatches(lowerCase, request[i], key, rule[key])
  {
    hide HeaderMatches;
    found := false;
    if |rule| == 0 {
      return;
    }
    for k := 0 to |order|
      invariant forall j, i :: 0 <= j < k && 0 <= i < |request| ==>
                  !HeaderMatches(lowerCase, request[i], order[j], rule[order[j]])
    {
      var key := order[k];
      for i := 0 to |request|
        invariant forall m :: 0 <= m < i ==> !HeaderMatches(lowerCase, request[m], key, rule[key])
      {
        if HeaderMatches(lowerCase, request[i], key, rule[key]) {
          assert key in order;
          return true;
        }
      }
    }
    forall key, i | key in rule && 0 <= i < |request|
      ensures !HeaderMatches(lowerCase, request[i], key, rule[key])
    {
      var j :| 0 <= j < |order| && order[j] == key;
    }
  }

  // ----- Selection -----

  function StartedNames(config: seq<PoolConfig>): set<string> {
    if config == [] then {}
    else (if config[0].started then {config[0].name} else {}) + StartedNames(config[1..])
  }

  /** The rules of the pools that started, in the order of the configuration. */
  function StartedRules(config: seq<PoolConfig>): seq<Rule> {
    if config == [] then []
    else (if config[0].started then [RuleOf(config[0])] else []) + StartedRules(config[1..])
  }

  predicate ByHeader(lowerCase: string -> string, table: seq<Rule>, request: seq<Header>, k: nat)
    requires k < |table|
  {
    MatchHeaders(lowerCase, request, table[k].headers)
  }

  predicate ByPattern(table: seq<Rule>, path: string, k: nat)
    requires k < |table|
  {
    exists i :: 0 <= i < |table[k].patterns| && MatchPattern(path, table[k].patterns[i])
  }

  /** Rule k decides: the first header match, else the first pattern match, else the first rule. */
  predicate Decides(lowerCase: string -> string, table: seq<Rule>, path: string, request: seq<Header>, k: nat)
    requires k < |table|
  {
    || (ByHeader(lowerCase, table, request, k) && forall j :: 0 <= j < k ==> !ByHeader(lowerCase, table, request, j))
    || ((forall j :: 0 <= j < |table| ==> !ByHeader(lowerCase, table, request, j))
        && ByPattern(table, path, k) && forall j :: 0 <= j < k ==> !ByPattern(table, path, j))
    || ((forall j :: 0 <= j < |table| ==> !ByHeader(lowerCase, table, request, j) && !ByPattern(table, path, j))
        && k == 0)
  }

  predicate MatchesPath(rule: Rule, path: string) {
    exists p :: p in rule.patterns && MatchPattern(path, p)
  }

  /** Headers come before patterns, patterns before the first rule, and earlier rules before later ones. */
  lemma DecidesInOrder(lowerCase: string -> string, table: seq<Rule>, path: string, request: seq<Header>, k: nat)
    requires k < |table| && Decides(lowerCase, table, path, request, k)
    ensures forall j :: 0 <= j < k ==> !MatchHeaders(lowerCase, request, table[j].headers)
    ensures (exists j :: 0 <= j < |table| && MatchHeaders(lowerCase, request, table[j].headers)) ==>
              MatchHeaders(lowerCase, request, table[k].headers)
    ensures !MatchHeaders(lowerCase, request, table[k].headers) ==>
              && (forall j :: 0 <= j < k ==> !MatchesPath(table[j], path))
              && ((exists j :: 0 <= j < |table| && MatchesPath(table[j], path)) ==> MatchesPath(table[k], path))
              && (MatchesPath(table[k], path) || k == 0)
  {
    hide MatchHeaders, MatchPattern;
    forall j | 0 <= j < |table|
      ensures ByPattern(table, path, j) <==> MatchesPath(table[j], path)
      ensures ByHeader(lowerCase, table, request, j) <==> MatchHeaders(lowerCase, request, table[j].headers)
    {
    }
    hide ByPattern, MatchesPath, ByHeader;
  }

  /** Exactly one rule decides whenever there is one. */
  lemma DecidingRuleIsUnique(lowerCase: string -> string, table: seq<Rule>, path: string, request: seq<Header>,
                             j: nat, k: nat)
    requires j < |table| && k < |table|
    requires Decides(lowerCase, table, path, request, j) && Decides(lowerCase, table, path, request, k)
    ensures j == k
  {
    hide ByHeader, ByPattern;
  }

  /** Any order in which a hash map may yield the keys of each rule. */
  predicate Orders(table: seq<Rule>, orders: seq<seq<string>>) {
    |orders| == |table| &&
    forall k :: 0 <= k < |table| ==> multiset(orders[k]) == multiset(table[k].headers.Keys)
  }

  lemma OrderHasTheKeys(rule: map<string, string>, order: seq<string>)
    requires multiset(order) == multiset(rule.Keys)
    ensures forall key :: key in order <==> key in rule
  {
    forall key
      ensures key in order <==> key in rule
    {
      assert key in order <==> key in multiset(order);
      assert key in multiset(rule.Keys) <==> key in rule.Keys;
    }
  }

  class PoolManager {
    var pools: set<string>
    var routingTable: seq<Rule>

    /** Every rule leads to a pool that exists. */
    ghost predicate Live()
      reads this
    {
      forall k :: 0 <= k < |routingTable| ==> routingTable[k].poolName in pools
    }

    /** new: a pool whose workers do not start gets neither an entry nor a rule. */
    constructor (config: seq<PoolConfig>)
      ensures Live()
      ensures pools == StartedNames(config) && routingTable == StartedRules(config)
    {
      pools := {};
      routingTable := [];
      new;
      hide StartedNames, StartedRules, RuleOf;
      for i := 0 to |config|
        invariant pools + StartedNames(config[i..]) == StartedNames(config)
        invariant routingTable + StartedRules(config[i..]) == StartedRules(config)
      {
        StartedStep(config, i);
        if config[i].started {
          pools := pools + {config[i].name};
          routingTable := routingTable + [RuleOf(config[i])];
        }
      }
      NothingStarts(config[|config|..]);
      assert pools == StartedNames(config) && routingTable == StartedRules(config);
      StartedIsLive(config);
    }

    /** update_routing_table: pools are neither made nor dropped, rules only for those that exist. */
    method UpdateRoutingTable(config: seq<PoolConfig>)
      modifies this
      ensures pools == old(pools) && Live() && routingTable == Kept(config, pools)
    {
      hide Kept, RuleOf;
      var newTable: seq<Rule> := [];
      for i := 0 to |config|
        invariant pools == old(pools)
        invariant newTable + Kept(config[i..], pools) == Kept(config, pools)
      {
        KeptStep(config, pools, i);
        if config[i].name in pools {
          newTable := newTable + [RuleOf(config[i])];
        }
      }
      NothingKept(config[|config|..], pools);
      assert newTable == Kept(config, pools);
      KeptIsLive(config, pools);
      routingTable := newTable;
    }

    /** get_pool_name_for_request. */
    method GetPoolNameForRequest(lowerCase: string -> string, path: string, request: seq<Header>,
                                 orders: seq<seq<string>>)
      returns (name: Option<string>)
      requires Orders(routingTable, orders)
      ensures name == None <==> routingTable == []
      ensures name.Some? ==>
                exists k :: 0 <= k < |routingTable| && Decides(lowerCase, routingTable, path, request, k)
                            && name == Some(routingTable[k].poolName)
      ensures Live() && name.Some? ==> name.value in pools
    {
      hide MatchHeaders, MatchPattern;
      for k := 0 to |routingTable|
        invariant forall j :: 0 <= j < k ==> !ByHeader(lowerCase, routingTable, request, j)
      {
        OrderHasTheKeys(routingTable[k].headers, orders[k]);
        var found := FindHeaderMatch(lowerCase, request, routingTable[k].headers, orders[k]);
        if found {
          assert Decides(lowerCase, routingTable, path, request, k);
          return Some(routingTable[k].poolName);
        }
      }
      for k := 0 to |routingTable|
        invariant forall j :: 0 <= j < k ==> !ByPattern(routingTable, path, j)
      {
        var patterns := routingTable[k].patterns;
        for i := 0 to |patterns|
          invariant forall m :: 0 <= m < i ==> !MatchPattern(path, patterns[m])
        {
          if MatchPattern(path, patterns[i]) {
            assert Decides(lowerCase, routingTable, path, request, k);
            return Some(routingTable[k].poolName);
          }
        }
      }
      if routingTable == [] {
        return None;
      }
      assert Decides(lowerCase, routingTable, path, request, 0);
      return Some(routingTable[0].poolName);
    }
  }

  function Kept(config: seq<PoolConfig>, pools: set<string>): seq<Rule> {
    if config == [] then []
    else (if config[0].name in pools then [RuleOf(config[0])] else []) + Kept(config[1..], pools)
  }

  lemma KeptStep(config: seq<PoolConfig>, pools: set<string>, i: nat)
    requires i < |config|
    ensures Kept(config[i..], pools)
            == (if config[i].name in pools then [RuleOf(config[i])] else []) + Kept(config[i + 1..], pools)
  {
    assert config[i..][1..] == config[i + 1..];
  }

  lemma NothingKept(config: seq<PoolConfig>, pools: set<string>)
    requires config == []
    ensures Kept(config, pools) == []
  {
  }

  lemma {:induction false} KeptIsLive(config: seq<PoolConfig>, pools: set<string>)
    ensures forall k :: 0 <= k < |Kept(config, pools)| ==> Kept(config, pools)[k].poolName in pools
  {
    if config != [] {
      KeptIsLive(config[1..], pools);
    }
  }

  /** Some pool of that name started. */
  predicate StartsAs(config: seq<PoolConfig>, name: string) {
    exists i :: 0 <= i < |config| && config[i].started && config[i].name == name
  }

  lemma {:induction false} NameOfStarted(config: seq<PoolConfig>, name: string)
    ensures name in StartedNames(config) <==> StartsAs(config, name)
  {
    if config != [] {
      NameOfStarted(config[1..], name);
      if i :| 0 < i < |config| && config[i].started && config[i].name == name {
        assert config[1..][i - 1] == config[i];
      }
      if StartsAs(config[1..], name) {
        var i :| 0 <= i < |config[1..]| && config[1..][i].started && config[1..][i].name == name;
        assert config[i + 1] == config[1..][i];
      }
    }
  }

  /** Every pool that a rule is kept for has started itself. */
  predicate KeptStarted(config: seq<PoolConfig>, pools: set<string>) {
    forall c :: c in config && c.name in pools ==> c.started
  }

  lemma {:induction false} KeptAgainstStarted(config: seq<PoolConfig>, pools: set<string>)
    requires forall c :: c in config && c.started ==> c.name in pools
    ensures |Kept(config, pools)| >= |StartedRules(config)|
    ensures Kept(config, pools) == StartedRules(config) <==> KeptStarted(config, pools)
  {
    if config != [] {
      KeptAgainstStarted(config[1..], pools);
      var c, kept, started := config[0], Kept(config[1..], pools), StartedRules(config[1..]);
      assert config == [c] + config[1..];
      assert KeptStarted(config, pools) <==> (c.name in pools ==> c.started) && KeptStarted(config[1..], pools);
      assert c in config;
      if c.started {
        assert Kept(config, pools) == [RuleOf(c)] + kept && StartedRules(config) == [RuleOf(c)] + started;
        assert ([RuleOf(c)] + kept)[1..] == kept && ([RuleOf(c)] + started)[1..] == started;
      } else {
        assert StartedRules(config) == started;
        assert c.name !in pools ==> Kept(config, pools) == kept;
      }
    }
  }

  /**
   Reloading the configuration the manager was made with leaves its table as it was, exactly when no pool that did
   not start shares its name with one that did.
   */
  lemma ReloadOfSameConfig(config: seq<PoolConfig>)
    ensures Kept(config, StartedNames(config)) == StartedRules(config) <==>
            forall c, d :: c in config && d in config && c.name == d.name && c.started ==> d.started
  {
    hide StartedNames, StartedRules, Kept;
    forall c | c in config
      ensures c.name in StartedNames(config) <==> exists d :: d in config && d.started && d.name == c.name
    {
      NameOfStarted(config, c.name);
    }
    KeptAgainstStarted(config, StartedNames(config));
  }

  lemma StartedStep(config: seq<PoolConfig>, i: nat)
    requires i < |config|
    ensures var c := config[i];
            && StartedNames(config[i..]) == (if c.started then {c.name} else {}) + StartedNames(config[i + 1..])
            && StartedRules(config[i..]) == (if c.started then [RuleOf(c)] else []) + StartedRules(config[i + 1..])
  {
    assert config[i..][1..] == config[i + 1..];
  }

  lemma {:induction false} StartedAsConfigured(config: seq<PoolConfig>, c: PoolConfig)
    ensures StartedRules(config + [c])
            == StartedRules(config) + (if c.started then [Rule(c.name, c.patterns, c.headers)] else [])
  {
    if config == [] {
      assert config + [c] == [c] && [c][1..] == [];
    } else {
      hide RuleOf;
      StartedAsConfigured(config[1..], c);
      assert (config + [c])[1..] == config[1..] + [c];
    }
  }

  lemma {:induction false} KeptAsConfigured(config: seq<PoolConfig>, c: PoolConfig, pools: set<string>)
    ensures Kept(config + [c], pools)
            == Kept(config, pools) + (if c.name in pools then [Rule(c.name, c.patterns, c.headers)] else [])
  {
    if config == [] {
      assert config + [c] == [c] && [c][1..] == [];
    } else {
      hide RuleOf;
      KeptAsConfigured(config[1..], c, pools);
      assert (config + [c])[1..] == config[1..] + [c];
    }
  }

  /** The tables are made rule by rule, in order, each rule with the name, patterns and headers configured. */
  lemma RulesAsConfigured(config: seq<PoolConfig>, c: PoolConfig, pools: set<string>)
    ensures StartedRules([]) == Kept([], pools) == []
    ensures StartedRules(config + [c])
            == StartedRules(config) + (if c.started then [Rule(c.name, c.patterns, c.headers)] else [])
    ensures Kept(config + [c], pools)
            == Kept(config, pools) + (if c.name in pools then [Rule(c.name, c.patterns, c.headers)] else [])
  {
    StartedAsConfigured(config, c);
    KeptAsConfigured(config, c, pools);
  }

  lemma NothingStarts(config: seq<PoolConfig>)
    requires config == []
    ensures StartedNames(config) == {} && StartedRules(config) == []
  {
  }

  lemma {:induction false} StartedIsLive(config: seq<PoolConfig>)
    ensures forall k :: 0 <= k < |StartedRules(config)| ==> StartedRules(config)[k].poolName in StartedNames(config)
  {
    if config != [] {
      StartedIsLive(config[1..]);
    }
  }

  /**
   A handler picks a name under one lock and resolves it under the next. Whatever reloads come between, the name
   resolves: the lookup never fails.
   */
  method RouteAcrossReloads(lowerCase: string -> string, manager: PoolManager, path: string, request: seq<Header>,
                            orders: seq<seq<string>>, reloads: seq<seq<PoolConfig>>)
    returns (name: Option<string>, resolves: bool)
    requires manager.Live() && Orders(manager.routingTable, orders)
    modifies manager
    ensures name == None <==> old(manager.routingTable) == []
    ensures name.Some? ==> resolves
    ensures manager.Live() && manager.pools == old(manager.pools)
  {
    name := manager.GetPoolNameForRequest(lowerCase, path, request, orders);
    for i := 0 to |reloads|
      invariant manager.Live() && manager.pools == old(manager.pools)
    {
      manager.UpdateRoutingTable(reloads[i]);
    }
    resolves := name.Some? && name.value in manager.pools;
  }
}
