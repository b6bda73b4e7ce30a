/**
 A lookup in the radix tier in terms of registered patterns: the one path of patterns a request
 follows, and which of the routes on it answers.
 */
module TrieLookup {
  import opened Wrappers
  import opened Text
  import opened SegmentTrie

  /** Where the `i`-th segment leads: to the literal child of its name, or else to the wildcard if that accepts it. */
  ghost predicate FollowsAt<T>(n: Node<T>, qs: seq<string>, p: seq<string>, i: nat, re: Regexes)
    requires i < |qs| == |p|
  {
    var at := Walk(n, p[..i]);
    at.Some?
    && if qs[i] in at.value.children then p[i] == qs[i]
       else
         && p[i] == "{}" && at.value.wild.Some?
         && (at.value.wild.value.constraint == "" || re.matches(at.value.wild.value.constraint, qs[i]))
  }

  /** `p` is the pattern a request follows, with "{}" for a wildcard. */
  ghost predicate Follows<T>(n: Node<T>, qs: seq<string>, p: seq<string>, re: Regexes)
  {
    |p| == |qs| && forall i :: 0 <= i < |qs| ==> FollowsAt(n, qs, p, i, re)
  }

  /** The segments that went through wildcards, under the names of those, in order. */
  ghost function CapturesOf<T>(n: Node<T>, qs: seq<string>, p: seq<string>): (caps: Captures)
    requires |p| == |qs|
  {
    if qs == [] then []
    else
      var k := |qs| - 1;
      var at := Walk(n, p[..k]);
      CapturesOf(n, qs[..k], p[..k])
      + if p[k] == "{}" && at.Some? && at.value.wild.Some? then [(at.value.wild.value.name, qs[k])] else []
  }

  lemma FollowsFront<T>(n: Node<T>, qs: seq<string>, p: seq<string>, re: Regexes, k: nat)
    requires Follows(n, qs, p, re) && k <= |qs|
    ensures Follows(n, qs[..k], p[..k], re) && |p| == |qs| && (k < |qs| ==> FollowsAt(n, qs, p, k, re))
  {
    forall i | 0 <= i < k ensures FollowsAt(n, qs[..k], p[..k], i, re) {
      assert FollowsAt(n, qs, p, i, re);
      assert p[..k][..i] == p[..i];
    }
  }

  lemma {:induction false} WalkShaped<T>(n: Node<T>, p: seq<string>)
    requires Shaped(n) && Walk(n, p).Some?
    ensures Shaped(Walk(n, p).value)
    decreases |p|
  {
    if p != [] {
      if p[0] in n.children { WalkShaped(n.children[p[0]], p[1..]); } else { WalkShaped(n.wild.value.node, p[1..]); }
    }
  }

  lemma WalkOne<T>(n: Node<T>, seg: string)
    requires Shaped(n)
    ensures seg in n.children ==> Walk(n, [seg]) == Some(n.children[seg]) && seg != "{}"
    ensures n.wild.Some? ==> Walk(n, ["{}"]) == Some(n.wild.value.node)
    ensures Walk(n, []) == Some(n)
  {
    assert [seg][1..] == [] && ["{}"][1..] == [];
    assert IsWild("{}");
  }

  /** Following a pattern is reaching its node. */
  lemma {:induction false} FollowsReach<T>(n: Node<T>, qs: seq<string>, p: seq<string>, re: Regexes)
    requires Shaped(n) && Follows(n, qs, p, re)
    ensures Walk(n, p).Some? && Reach(n, qs, re) == Some((Walk(n, p).value, CapturesOf(n, qs, p)))
    decreases |qs|
  {
    hide Walk, Shaped, Follows;
    FollowsFront(n, qs, p, re, 0);
    if qs == [] {
      WalkOne(n, "");
      assert p == [];
    } else {
      var k := |qs| - 1;
      FollowsFront(n, qs, p, re, k);
      FollowsReach(n, qs[..k], p[..k], re);
      assert p == p[..k] + [p[k]];
      WalkAppend(n, p[..k], p[k]);
      WalkShaped(n, p[..k]);
      WalkOne(Walk(n, p[..k]).value, qs[k]);
      assert CapturesOf(n, qs[..k], p[..k]) + [] == CapturesOf(n, qs[..k], p[..k]);
    }
  }

  /** And whatever is reached was followed. */
  lemma {:induction false} ReachFollowed<T>(n: Node<T>, qs: seq<string>, re: Regexes) returns (p: seq<string>)
    requires Shaped(n) && Reach(n, qs, re).Some?
    ensures Follows(n, qs, p, re)
    decreases |qs|
  {
    if qs == [] {
      p := [];
    } else {
      var k := |qs| - 1;
      var front := ReachFollowed(n, qs[..k], re);
      FollowsReach(n, qs[..k], front, re);
      var at := Walk(n, front).value;
      p := front + [if qs[k] in at.children then qs[k] else "{}"];
      forall i | 0 <= i < |qs| ensures FollowsAt(n, qs, p, i, re) {
        assert p[..i] == front[..i];
        if i < k { assert FollowsAt(n, qs[..k], front, i, re); } else { assert front[..i] == front; }
      }
    }
  }

  /** The request ends on a route, or passes a prefix route after `k` segments. */
  ghost predicate EndsOn<T(!new)>(n: Node<T>, qs: seq<string>, re: Regexes)
  {
    exists p :: Follows(n, qs, p, re) && At(n, p, false).Some?
  }

  ghost predicate Passes<T(!new)>(n: Node<T>, qs: seq<string>, k: nat, re: Regexes)
    requires k <= |qs|
  {
    exists p :: Follows(n, qs[..k], p, re) && At(n, p, true).Some?
  }

  lemma HereIs<T(!new)>(n: Node<T>, qs: seq<string>, k: nat, re: Regexes)
    requires Shaped(n) && k <= |qs|
    ensures var here := Reach(n, qs[..k], re);
            && (Passes(n, qs, k, re) <==> here.Some? && here.value.0.prefix.Some?)
            && (forall p :: Follows(n, qs[..k], p, re) && At(n, p, true).Some? ==>
                  here == Some((Walk(n, p).value, CapturesOf(n, qs[..k], p))))
  {
    hide FollowsAt, Reach, CapturesOf, Shaped;
    var here := Reach(n, qs[..k], re);
    forall p | Follows(n, qs[..k], p, re)
      ensures Walk(n, p).Some? && here == Some((Walk(n, p).value, CapturesOf(n, qs[..k], p)))
    {
      FollowsReach(n, qs[..k], p, re);
    }
    if here.Some? { var p := ReachFollowed(n, qs[..k], re); }
  }

  lemma {:induction false} DeepestNone<T(!new)>(n: Node<T>, qs: seq<string>, k: nat, re: Regexes)
    requires Shaped(n) && k <= |qs|
    ensures Deepest(n, qs, k, re).None? <==> forall j :: 0 <= j <= k ==> !Passes(n, qs, j, re)
  {
    hide Follows, Reach, CapturesOf, Shaped, Walk, Passes;
    HereIs(n, qs, k, re);
    if k > 0 {
      DeepestNone(n, qs, k - 1, re);
      assert (forall j :: 0 <= j <= k ==> !Passes(n, qs, j, re)) <==>
             !Passes(n, qs, k, re) && forall j :: 0 <= j <= k - 1 ==> !Passes(n, qs, j, re);
    }
  }

  /** The deepest prefix route is the one after `j` segments when there is none further along. */
  lemma {:induction false} DeepestIs<T(!new)>(n: Node<T>, qs: seq<string>, k: nat, j: nat, p: seq<string>, re: Regexes)
    requires Shaped(n) && j <= k <= |qs| && Follows(n, qs[..j], p, re) && At(n, p, true).Some?
    requires forall i :: j < i <= k ==> !Passes(n, qs, i, re)
    ensures Deepest(n, qs, k, re) == Some(Match(At(n, p, true).value, CapturesOf(n, qs[..j], p), true))
    decreases k
  {
    hide Follows, Reach, CapturesOf, Shaped, Walk, Passes;
    HereIs(n, qs, k, re);
    if j < k { DeepestIs(n, qs, k - 1, j, p, re); }
  }

  /**
   A request is answered by the exact route it ends on, with what went through wildcards; if there is none, by the
   prefix route furthest along its way; and by nobody exactly when there is neither.
   */
  lemma SearchIsDeepest<T(!new)>(n: Node<T>, qs: seq<string>, re: Regexes)
    requires Shaped(n)
    ensures forall p :: Follows(n, qs, p, re) && At(n, p, false).Some? ==>
              Search(n, qs, re) == Some(Match(At(n, p, false).value, CapturesOf(n, qs, p), false))
    ensures forall k: nat, p ::
              && !EndsOn(n, qs, re) && k <= |qs| && Follows(n, qs[..k], p, re) && At(n, p, true).Some?
              && (forall i :: k < i <= |qs| ==> !Passes(n, qs, i, re))
              ==>
              Search(n, qs, re) == Some(Match(At(n, p, true).value, CapturesOf(n, qs[..k], p), true))
    ensures Search(n, qs, re).None? <==> !EndsOn(n, qs, re) && forall k :: 0 <= k <= |qs| ==> !Passes(n, qs, k, re)
  {
    hide FollowsAt, Reach, CapturesOf, Shaped, Deepest;
    DeepestNone(n, qs, |qs|, re);
    forall k: nat, p |
      && k <= |qs| && Follows(n, qs[..k], p, re) && At(n, p, true).Some?
      && (forall i :: k < i <= |qs| ==> !Passes(n, qs, i, re))
      ensures Deepest(n, qs, |qs|, re) == Some(Match(At(n, p, true).value, CapturesOf(n, qs[..k], p), true))
    {
      DeepestIs(n, qs, |qs|, k, p, re);
    }
    forall p | Follows(n, qs, p, re)
      ensures Walk(n, p).Some? && Reach(n, qs, re) == Some((Walk(n, p).value, CapturesOf(n, qs, p)))
    {
      FollowsReach(n, qs, p, re);
    }
    if Reach(n, qs, re).Some? { var p := ReachFollowed(n, qs, re); }
  }

  /** A request follows one pattern only. */
  lemma FollowsOnce<T>(n: Node<T>, qs: seq<string>, p: seq<string>, q: seq<string>, re: Regexes)
    requires Follows(n, qs, p, re) && Follows(n, qs, q, re)
    ensures p == q
    decreases |qs|
  {
    if qs != [] {
      var k := |qs| - 1;
      FollowsFront(n, qs, p, re, k);
      FollowsFront(n, qs, q, re, k);
      FollowsOnce(n, qs[..k], p[..k], q[..k], re);
      assert FollowsAt(n, qs, p, k, re) && FollowsAt(n, qs, q, k, re);
      assert p == p[..k] + [p[k]] && q == q[..k] + [q[k]];
    }
  }

  /** The segments of a request: one slash at either end is ignored, empty segments inside are not. */
  lemma SegmentsOfRequest(segs: seq<string>)
    requires segs != [] && SepFree(segs, '/') && segs[|segs| - 1] != ""
    ensures RequestSegs("/" + Join(segs, '/')) == segs && RequestSegs("/" + Join(segs, '/') + "/") == segs
    ensures RequestSegs("/") == [] && RequestSegs("") == []
  {
    hide *;
    var s := Join(segs, '/');
    PoppedJoin(segs);
    NothingPopped();
    SlashOff(s);
    SlashOff(s + "/");
    SlashOff("");
    assert "/" + "" == "/" && "/" + (s + "/") == "/" + s + "/";
  }

  lemma SlashOff(s: string)
    ensures RequestSegs("/" + s) == Popped(s)
  {
    assert ("/" + s)[1..] == s;
    hide Popped;
  }

  lemma NothingPopped()
    ensures Popped("") == [] && RequestSegs("") == []
  {
    OneEmpty();
  }

  lemma PoppedJoin(segs: seq<string>)
    requires segs != [] && SepFree(segs, '/') && segs[|segs| - 1] != ""
    ensures Popped(Join(segs, '/')) == segs && Popped(Join(segs, '/') + "/") == segs
  {
    hide Fields, Join;
    FieldsOfJoin(segs, '/');
    JoinedWithEmpty(segs);
  }

  lemma JoinedWithEmpty(segs: seq<string>)
    requires segs != [] && SepFree(segs, '/')
    ensures Fields(Join(segs, '/') + "/", '/') == segs + [""] && DropTrailingEmpty(segs + [""]) == segs
  {
    hide Fields, Join;
    OneEmpty();
    JoinConcat(segs, [""], '/');
    assert Join(segs, '/') + ['/'] + "" == Join(segs, '/') + "/";
    FieldsOfJoin(segs + [""], '/');
    assert (segs + [""])[..|segs|] == segs;
  }

  lemma OneEmpty()
    ensures Join([""], '/') == "" && Fields("", '/') == [""]
  {
  }

  /** A wildcard segment: its name, and after a bar its constraint. */
  lemma WildSegments(name: string, constraint: string)
    requires '|' !in name
    ensures var plain, bound := "{" + name + "}", "{" + name + "|" + constraint + "}";
            && IsWild(plain) && WildName(plain) == name && WildConstraint(plain) == ""
            && IsWild(bound) && WildName(bound) == name && WildConstraint(bound) == constraint
  {
    var plain, bound := "{" + name + "}", "{" + name + "|" + constraint + "}";
    assert forall i :: 0 <= i < |name| ==> plain[i + 1] == name[i] && bound[i + 1] == name[i];
    FirstOccurrence(plain, '|', |plain|);
    FirstOccurrence(bound, '|', |name| + 1);
    assert plain[1..|plain| - 1] == name && bound[1..|name| + 1] == name;
    assert bound[|name| + 2..|bound| - 1] == constraint;
  }
}
