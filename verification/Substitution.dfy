/** Textual parameter substitution of db_proxy/mod.rs: for each parameter, the first question mark is replaced. */
module Substitution {
  import opened Bytes

  const MARK: byte := 0x3f

  function Marks(s: text): nat {
    if s == [] then 0 else (if s[0] == MARK then 1 else 0) + Marks(s[1..])
  }

  /** The marks are the question marks. */
  lemma {:induction false} MarksCount(s: text)
    ensures Marks(s) == multiset(s)[0x3f]
  {
    if s != [] {
      MarksCount(s[1..]);
      assert s == [s[0]] + s[1..];
    }
  }

  /** Rust's replacen('?', p, 1). */
  function ReplaceFirst(s: text, p: text): text {
    if s == [] then []
    else if s[0] == MARK then p + s[1..]
    else [s[0]] + ReplaceFirst(s[1..], p)
  }

  function Substitute(query: text, params: seq<text>): text
    decreases |params|
  {
    if params == [] then query else Substitute(ReplaceFirst(query, params[0]), params[1..])
  }

  method SubstituteParameters(query: text, params: seq<text>) returns (result: text)
    ensures result == Substitute(query, params)
  {
    result := query;
    for i := 0 to |params|
      invariant Substitute(query, params) == Substitute(result, params[i..])
    {
      assert params[i..][1..] == params[i + 1..];
      result := ReplaceFirst(result, params[i]);
    }
  }

  /** The intended meaning: the k-th question mark of the query becomes the k-th parameter, in one pass. */
  function Template(query: text, params: seq<text>): text {
    if query == [] || params == [] then query
    else if query[0] == MARK then params[0] + Template(query[1..], params[1..])
    else [query[0]] + Template(query[1..], params)
  }

  // ----- One replacement -----

  lemma {:induction false} MarksAdd(a: text, b: text)
    ensures Marks(a + b) == Marks(a) + Marks(b)
  {
    if a == [] {
      assert a + b == b;
    } else {
      assert (a + b)[1..] == a[1..] + b;
      MarksAdd(a[1..], b);
    }
  }

  /** A replacement uses up one mark and brings those of the parameter. */
  lemma {:induction false} ReplaceFirstEffect(s: text, p: text)
    ensures Marks(s) == 0 ==> ReplaceFirst(s, p) == s
    ensures Marks(s) > 0 ==>
              |ReplaceFirst(s, p)| == |s| - 1 + |p| && Marks(ReplaceFirst(s, p)) == Marks(s) - 1 + Marks(p)
  {
    if s != [] {
      assert s == [s[0]] + s[1..];
      if s[0] == MARK {
        MarksAdd(p, s[1..]);
      } else {
        ReplaceFirstEffect(s[1..], p);
        MarksAdd([s[0]], ReplaceFirst(s[1..], p));
      }
    }
  }

  lemma {:induction false} ReplaceBehind(prefix: text, s: text, p: text)
    requires Marks(prefix) == 0
    ensures ReplaceFirst(prefix + s, p) == prefix + ReplaceFirst(s, p)
  {
    if prefix == [] {
      assert prefix + s == s;
    } else {
      assert (prefix + s)[1..] == prefix[1..] + s;
      ReplaceBehind(prefix[1..], s, p);
      assert prefix == [prefix[0]] + prefix[1..];
    }
  }

  lemma {:induction false} ReplaceInside(x: text, t: text, p: text)
    requires Marks(x) > 0
    ensures ReplaceFirst(x + t, p) == ReplaceFirst(x, p) + t
  {
    assert (x + t)[1..] == x[1..] + t;
    if x[0] != MARK {
      ReplaceInside(x[1..], t, p);
    }
  }

  lemma {:induction false} ReplaceByMark(s: text)
    ensures ReplaceFirst(s, [MARK]) == s
  {
    if s != [] {
      assert s == [s[0]] + s[1..];
      if s[0] != MARK {
        ReplaceByMark(s[1..]);
      }
    }
  }

  // ----- All of them -----

  lemma {:induction false} SubstituteBehind(prefix: text, s: text, params: seq<text>)
    requires Marks(prefix) == 0
    ensures Substitute(prefix + s, params) == prefix + Substitute(s, params)
    decreases |params|
  {
    if params != [] {
      ReplaceBehind(prefix, s, params[0]);
      SubstituteBehind(prefix, ReplaceFirst(s, params[0]), params[1..]);
    }
  }

  lemma {:induction false} NothingToSubstitute(params: seq<text>)
    ensures Substitute([], params) == []
    decreases |params|
  {
    if params != [] {
      NothingToSubstitute(params[1..]);
    }
  }

  predicate AllBare(params: seq<text>) {
    forall k :: 0 <= k < |params| ==> params[k] == [MARK]
  }

  lemma {:induction false} SubstituteBare(s: text, params: seq<text>)
    requires AllBare(params)
    ensures Substitute(s, params) == s
    decreases |params|
  {
    if params != [] {
      ReplaceByMark(s);
      SubstituteBare(s, params[1..]);
    }
  }

  lemma {:induction false} TemplateBare(s: text, params: seq<text>)
    requires AllBare(params)
    ensures Template(s, params) == s
  {
    if s != [] && params != [] {
      assert s == [s[0]] + s[1..];
      TemplateBare(s[1..], if s[0] == MARK then params[1..] else params);
    }
  }

  /** Behind a parameter that holds a question mark stand only parameters that are one. */
  predicate Harmless(params: seq<text>) {
    forall f, j :: 0 <= f < j < |params| && Marks(params[f]) > 0 ==> params[j] == [MARK]
  }

  /** One replacement after the other gives the template, for every query. */
  lemma {:induction false} SubstituteIsTemplate(query: text, params: seq<text>)
    requires Harmless(params)
    ensures Substitute(query, params) == Template(query, params)
    decreases |query|
  {
    if query == [] {
      NothingToSubstitute(params);
    } else if params != [] {
      var rest := query[1..];
      assert query == [query[0]] + rest;
      if query[0] != MARK {
        SubstituteBehind([query[0]], rest, params);
        SubstituteIsTemplate(rest, params);
      } else if Marks(params[0]) == 0 {
        SubstituteIsTemplate(rest, params[1..]);
        SubstituteBehind(params[0], rest, params[1..]);
      } else {
        SubstituteBare(params[0] + rest, params[1..]);
        TemplateBare(rest, params[1..]);
      }
    }
  }

  // ----- A list that is not harmless -----

  /** A text with so many marks has one left for each parameter, those of the earlier parameters included. */
  predicate Enough(marks: nat, params: seq<text>)
    decreases |params|
  {
    params == [] || (marks > 0 && Enough(marks - 1 + Marks(params[0]), params[1..]))
  }

  lemma {:induction false} EnoughWithOneEach(marks: nat, params: seq<text>)
    requires marks >= |params|
    ensures Enough(marks, params)
    decreases |params|
  {
    if params != [] {
      EnoughWithOneEach(marks - 1 + Marks(params[0]), params[1..]);
    }
  }

  lemma {:induction false} EnoughWithOneLess(marks: nat, params: seq<text>, f: nat)
    requires marks >= |params| - 1 && f < |params| - 1 && Marks(params[f]) > 0
    ensures Enough(marks, params)
    decreases f
  {
    if f == 0 {
      EnoughWithOneEach(marks - 1 + Marks(params[0]), params[1..]);
    } else {
      EnoughWithOneLess(marks - 1 + Marks(params[0]), params[1..], f - 1);
    }
  }

  /** What stands behind enough marks is not reached. */
  lemma {:induction false} SubstituteInside(x: text, t: text, params: seq<text>)
    requires Enough(Marks(x), params)
    ensures Substitute(x + t, params) == Substitute(x, params) + t
    decreases |params|
  {
    if params != [] {
      ReplaceInside(x, t, params[0]);
      ReplaceFirstEffect(x, params[0]);
      SubstituteInside(ReplaceFirst(x, params[0]), t, params[1..]);
    }
  }

  lemma {:induction false} SubstituteInParts(s: text, params: seq<text>, more: seq<text>)
    ensures Substitute(s, params + more) == Substitute(Substitute(s, params), more)
    decreases |params|
  {
    if params == [] {
      assert params + more == more;
    } else {
      assert (params + more)[1..] == params[1..] + more;
      SubstituteInParts(ReplaceFirst(s, params[0]), params[1..], more);
    }
  }

  function Bare(n: nat): (s: text)
    ensures Marks(s) == n
  {
    if n == 0 then [] else [MARK] + Bare(n - 1)
  }

  function Joined(params: seq<text>): text {
    if params == [] then [] else params[0] + Joined(params[1..])
  }

  lemma {:induction false} TemplateOfBare(params: seq<text>, rest: text, more: seq<text>)
    ensures Template(Bare(|params|) + rest, params + more) == Joined(params) + Template(rest, more)
  {
    if params == [] {
      assert Bare(0) + rest == rest && params + more == more;
    } else {
      var query := Bare(|params|) + rest;
      assert query[0] == MARK && query[1..] == Bare(|params| - 1) + rest;
      assert (params + more)[1..] == params[1..] + more;
      TemplateOfBare(params[1..], rest, more);
    }
  }

  /** A letter that is not the one before the last of p. */
  function Letter(p: text): (c: byte)
    ensures c != MARK && (|p| >= 2 ==> c != p[|p| - 2])
  {
    if |p| >= 2 && p[|p| - 2] == 0x61 then 0x62 else 0x61
  }

  lemma EndsDiffer(x: text, y: text, p: text)
    requires p != [MARK]
    ensures x + [Letter(p), MARK] != y + [Letter(p)] + p
  {
    var s, t := x + [Letter(p), MARK], y + [Letter(p)] + p;
    assert s[|s| - 1] == MARK && s[|s| - 2] == Letter(p);
    if |p| >= 2 {
      assert t[|t| - 2] == p[|p| - 2];
    } else if |p| == 1 {
      assert t[|t| - 1] == p[0];
    } else {
      assert t[|t| - 1] == Letter(p);
    }
  }

  /** The letter, a mark, and n more marks. */
  function Ending(p: text, n: nat): text {
    [Letter(p)] + ([MARK] + Bare(n))
  }

  /** The query of one mark for each parameter, with a letter before the mark of the last that is not bare. */
  function Telling(params: seq<text>, j: nat): (query: text)
    requires j < |params|
    ensures Marks(query) == |params|
  {
    MarksOfTelling(j, params[j], |params| - j - 1);
    Bare(j) + Ending(params[j], |params| - j - 1)
  }

  lemma MarksOfTelling(m: nat, p: text, n: nat)
    ensures Marks(Bare(m) + Ending(p, n)) == m + 1 + n
  {
    hide Bare, Letter;
    MarksAdd(Bare(m), Ending(p, n));
    MarksAdd([Letter(p)], [MARK] + Bare(n));
    MarksAdd([MARK], Bare(n));
  }

  lemma TellingIsSubstituted(a: seq<text>, p: text, bare: seq<text>, f: nat)
    requires f < |a| && Marks(a[f]) > 0 && AllBare(bare)
    ensures Substitute(Bare(|a|) + Ending(p, |bare|), a + ([p] + bare))
            == Substitute(Bare(|a|), a + [p]) + Ending(p, |bare|)
  {
    hide Substitute, Bare, Ending, Enough, Marks;
    var rest := Ending(p, |bare|);
    EnoughWithOneLess(|a|, a + [p], f);
    SubstituteInside(Bare(|a|), rest, a + [p]);
    SubstituteInParts(Bare(|a|) + rest, a + [p], bare);
    SubstituteBare(Substitute(Bare(|a|), a + [p]) + rest, bare);
    assert (a + [p]) + bare == a + ([p] + bare);
  }

  lemma TemplateLetter(c: byte, rest: text, params: seq<text>)
    requires c != MARK
    ensures Template([c] + rest, params) == [c] + Template(rest, params)
  {
    assert ([c] + rest)[1..] == rest;
    if params == [] {
      assert Template(rest, params) == rest;
    }
  }

  lemma TemplateMark(rest: text, p: text, params: seq<text>)
    ensures Template([MARK] + rest, [p] + params) == p + Template(rest, params)
  {
    assert ([MARK] + rest)[1..] == rest && ([p] + params)[1..] == params;
  }

  lemma TellingAsTemplate(a: seq<text>, p: text, bare: seq<text>)
    requires AllBare(bare)
    ensures Template(Bare(|a|) + Ending(p, |bare|), a + ([p] + bare))
            == Joined(a) + ([Letter(p)] + (p + Bare(|bare|)))
  {
    hide Template, Bare, Joined, Letter, AllBare;
    TemplateOfBare(a, Ending(p, |bare|), [p] + bare);
    TemplateLetter(Letter(p), [MARK] + Bare(|bare|), [p] + bare);
    TemplateMark(Bare(|bare|), p, bare);
    TemplateBare(Bare(|bare|), bare);
  }

  lemma TellingQueryFails(params: seq<text>, f: nat, j: nat)
    requires f < j < |params| && Marks(params[f]) > 0 && params[j] != [MARK] && AllBare(params[j + 1..])
    ensures Substitute(Telling(params, j), params) != Template(Telling(params, j), params)
  {
    hide Substitute, Template, Bare, Letter, Marks, Joined, AllBare, Ending;
    var a, p, bare := params[..j], params[j], params[j + 1..];
    assert params == a + ([p] + bare);
    TellingIsSubstituted(a, p, bare, f);
    TellingAsTemplate(a, p, bare);
    TailsDiffer(Substitute(Bare(|a|), a + [p]), Joined(a), p, |bare|);
  }

  lemma TailsDiffer(x: text, y: text, p: text, n: nat)
    requires p != [MARK]
    ensures x + Ending(p, n) != y + ([Letter(p)] + (p + Bare(n)))
  {
    hide Letter, Bare;
    EndsDiffer(x, y, p);
    assert x + Ending(p, n) == (x + [Letter(p), MARK]) + Bare(n);
    assert y + ([Letter(p)] + (p + Bare(n))) == (y + [Letter(p)] + p) + Bare(n);
    if x + Ending(p, n) == y + ([Letter(p)] + (p + Bare(n))) {
      SameBeforeTail(x + [Letter(p), MARK], y + [Letter(p)] + p, Bare(n));
    }
  }

  lemma SameBeforeTail(s: text, t: text, tail: text)
    requires s + tail == t + tail
    ensures s == t
  {
    assert |s| == |t|;
    assert s == (s + tail)[..|s|] && t == (t + tail)[..|t|];
  }

  lemma LastNotBare(params: seq<text>, k: nat) returns (j: nat)
    requires k < |params| && params[k] != [MARK]
    ensures k <= j < |params| && params[j] != [MARK] && AllBare(params[j + 1..])
  {
    j := |params| - 1;
    while params[j] == [MARK]
      invariant k <= j < |params| && AllBare(params[j + 1..])
      decreases j
    {
      j := j - 1;
    }
  }

  /**
   For all queries with a mark for each parameter, one replacement after the other gives the template, exactly when
   the parameters are harmless.
   */
  lemma TemplateExactly(params: seq<text>)
    ensures Harmless(params) <==>
            forall query: text :: Marks(query) == |params| ==> Substitute(query, params) == Template(query, params)
  {
    hide Substitute, Template, Marks, Telling;
    if Harmless(params) {
      forall query: text | Marks(query) == |params|
        ensures Substitute(query, params) == Template(query, params)
      {
        SubstituteIsTemplate(query, params);
      }
    } else {
      var f, k :| 0 <= f < k < |params| && Marks(params[f]) > 0 && params[k] != [MARK];
      var j := LastNotBare(params, k);
      TellingQueryFails(params, f, j);
      assert Marks(Telling(params, j)) == |params|;
    }
  }

  // ----- Length, for arbitrary parameters -----

  function TotalLength(params: seq<text>): nat {
    if params == [] then 0 else |params[0]| + TotalLength(params[1..])
  }

  /** No parameter is lost, whatever it contains, while there are enough marks. */
  lemma {:induction false} SubstituteLength(query: text, params: seq<text>)
    requires |params| <= Marks(query)
    ensures |Substitute(query, params)| == |query| - |params| + TotalLength(params)
    decreases |params|
  {
    if params != [] {
      ReplaceFirstEffect(query, params[0]);
      SubstituteLength(ReplaceFirst(query, params[0]), params[1..]);
    }
  }
}
