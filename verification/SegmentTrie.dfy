/**
 The radix tier: a trie with one node per path segment, `{name}` and `{name|regex}` wildcard
 nodes, and an exact and a prefix terminus per node. Regex compilation and matching are
 parameters of the model.
 */
module SegmentTrie {
  import opened Wrappers
  import opened Text

  datatype Node<T> = Node(children: map<string, Node<T>>, wild: Option<Wild<T>>, exact: Option<T>, prefix: Option<T>)

  /** A wildcard child; the constraint "" means there is none. */
  datatype Wild<T> = Wild(name: string, constraint: string, node: Node<T>)

  /** `valid(src)`: the source compiles. `matches(src, text)`: the whole text matches it. */
  datatype Regexes = Regexes(valid: string -> bool, matches: (string, string) -> bool)

  type Captures = seq<(string, string)>

  datatype Match<T> = Match(entry: T, captures: Captures, isPrefix: bool)

  function Empty<T>(): (n: Node<T>) { Node(map[], None, None, None) }

  predicate IsWild(seg: string) { |seg| >= 2 && seg[0] == '{' && seg[|seg| - 1] == '}' }

  function WildName(seg: string): (name: string)
    requires IsWild(seg)
  {
    var bar := FindFrom(seg, '|', 0);
    if bar == |seg| then seg[1..|seg| - 1] else seg[1..bar]
  }

  function WildConstraint(seg: string): (src: string)
    requires IsWild(seg)
  {
    var bar := FindFrom(seg, '|', 0);
    if bar == |seg| then "" else seg[bar + 1..|seg| - 1]
  }

  function Terminus<T>(n: Node<T>, isPrefix: bool): (t: Option<T>) { if isPrefix then n.prefix else n.exact }

  function WithTerminus<T>(n: Node<T>, isPrefix: bool, t: Option<T>): (r: Node<T>)
  {
    if isPrefix then n.(prefix := t) else n.(exact := t)
  }

  // ---- patterns ------------------------------------------------------------------------

  /** walk_registered_pattern_. */
  function Walk<T>(n: Node<T>, segs: seq<string>): (r: Option<Node<T>>)
  {
    if segs == [] then Some(n)
    else if segs[0] in n.children then Walk(n.children[segs[0]], segs[1..])
    else if n.wild.Some? && IsWild(segs[0]) then Walk(n.wild.value.node, segs[1..])
    else None
  }

  function At<T>(n: Node<T>, segs: seq<string>, isPrefix: bool): (t: Option<T>)
  {
    var r := Walk(n, segs);
    if r.Some? then Terminus(r.value, isPrefix) else None
  }

  predicate HasTerminusAt<T>(n: Node<T>, segs: seq<string>, isPrefix: bool) { At(n, segs, isPrefix).Some? }

  /** The wildcard child `seg` descends into, created when missing. */
  function WildChild<T>(n: Node<T>, seg: string): (w: Wild<T>)
    requires IsWild(seg)
  {
    if n.wild.Some? then n.wild.value else Wild(WildName(seg), WildConstraint(seg), Empty())
  }

  /** Creating a wildcard child with a constraint that does not compile throws. */
  predicate Throws<T>(n: Node<T>, seg: string, re: Regexes)
  {
    IsWild(seg) && n.wild.None? && WildConstraint(seg) != "" && !re.valid(WildConstraint(seg))
  }

  /** The child is attached and named before the constraint is compiled. */
  function Thrown<T>(n: Node<T>, seg: string): (r: Node<T>)
    requires IsWild(seg)
  {
    n.(wild := Some(Wild(WildName(seg), "", Empty())))
  }

  predicate InsertFails<T>(n: Node<T>, segs: seq<string>, re: Regexes)
    decreases |segs|
  {
    segs != [] && (Throws(n, segs[0], re) || InsertFails(Child(n, segs[0]), segs[1..], re))
  }

  /** descend_or_create. */
  function Child<T>(n: Node<T>, seg: string): (c: Node<T>)
  {
    if IsWild(seg) then WildChild(n, seg).node else if seg in n.children then n.children[seg] else Empty()
  }

  function WithChild<T>(n: Node<T>, seg: string, c: Node<T>): (r: Node<T>)
  {
    if IsWild(seg) then n.(wild := Some(WildChild(n, seg).(node := c))) else n.(children := n.children[seg := c])
  }

  /** The trie after `insert`, also when it throws half-way. */
  function Inserted<T>(n: Node<T>, segs: seq<string>, entry: T, isPrefix: bool, re: Regexes): (r: Node<T>)
    decreases |segs|
  {
    if segs == [] then WithTerminus(n, isPrefix, Some(entry))
    else if Throws(n, segs[0], re) then Thrown(n, segs[0])
    else WithChild(n, segs[0], Inserted(Child(n, segs[0]), segs[1..], entry, isPrefix, re))
  }

  /** The trie after `remove`; nodes are never collapsed. */
  function Removed<T>(n: Node<T>, segs: seq<string>, isPrefix: bool): (r: Node<T>)
  {
    if segs == [] then WithTerminus(n, isPrefix, None)
    else if segs[0] in n.children then
      n.(children := n.children[segs[0] := Removed(n.children[segs[0]], segs[1..], isPrefix)])
    else if n.wild.Some? && IsWild(segs[0]) then
      n.(wild := Some(n.wild.value.(node := Removed(n.wild.value.node, segs[1..], isPrefix))))
    else n
  }

  // ---- the trie is a map from pattern shapes to termini ----------------------------------

  predicate SameSeg(a: string, b: string) { if IsWild(a) then IsWild(b) else a == b }

  /** Two patterns have the same shape when they differ only in what stands inside wildcards. */
  predicate SameShape(a: seq<string>, b: seq<string>)
  {
    |a| == |b| && forall i :: 0 <= i < |a| ==> SameSeg(a[i], b[i])
  }

  /** Wildcard-shaped segments never become literal children. */
  ghost predicate Shaped<T>(n: Node<T>)
  {
    (forall k <- n.children :: !IsWild(k) && Shaped(n.children[k])) && (n.wild.Some? ==> Shaped(n.wild.value.node))
  }

  lemma ChildShaped<T>(n: Node<T>, seg: string)
    requires Shaped(n)
    ensures Shaped(Child(n, seg))
  {
  }

  lemma WithChildShaped<T>(n: Node<T>, seg: string, c: Node<T>)
    requires Shaped(n) && Shaped(c)
    ensures Shaped(WithChild(n, seg, c))
  {
  }

  /** A wildcard keeps the name and constraint it was made with, whatever is inserted later. */
  lemma {:induction false} WildcardKept<T>(n: Node<T>, segs: seq<string>, entry: T, isPrefix: bool, re: Regexes,
                                           p: seq<string>)
    requires Shaped(n) && Walk(n, p).Some? && Walk(n, p).value.wild.Some?
    ensures var was, now := Walk(n, p).value.wild.value, Walk(Inserted(n, segs, entry, isPrefix, re), p);
            && now.Some? && now.value.wild.Some?
            && now.value.wild.value.name == was.name && now.value.wild.value.constraint == was.constraint
    decreases |p|
  {
    if p != [] && segs != [] {
      if p[0] in n.children {
        if p[0] == segs[0] { WildcardKept(n.children[p[0]], segs[1..], entry, isPrefix, re, p[1..]); }
      } else if IsWild(segs[0]) {
        WildcardKept(n.wild.value.node, segs[1..], entry, isPrefix, re, p[1..]);
      }
    }
  }

  /** A new one takes those of the segment that made it. */
  lemma WildcardMade<T>(n: Node<T>, name: string, constraint: string, rest: seq<string>, entry: T, isPrefix: bool,
                        re: Regexes)
    requires n.wild.None? && '|' !in name && (constraint == "" || re.valid(constraint))
    ensures var r := Inserted(n, ["{" + name + "|" + constraint + "}"] + rest, entry, isPrefix, re);
            r.wild.Some? && r.wild.value.name == name && r.wild.value.constraint == constraint
  {
    var seg := "{" + name + "|" + constraint + "}";
    assert forall i :: 0 <= i < |name| ==> seg[i + 1] == name[i];
    FirstOccurrence(seg, '|', |name| + 1);
    assert seg[1..|name| + 1] == name && seg[|name| + 2..|seg| - 1] == constraint;
    assert ([seg] + rest)[1..] == rest;
  }

  lemma {:induction false} InsertedShaped<T>(n: Node<T>, segs: seq<string>, entry: T, isPrefix: bool, re: Regexes)
    requires Shaped(n)
    ensures Shaped(Inserted(n, segs, entry, isPrefix, re))
    decreases |segs|
  {
    if segs != [] && !Throws(n, segs[0], re) {
      ChildShaped(n, segs[0]);
      InsertedShaped(Child(n, segs[0]), segs[1..], entry, isPrefix, re);
      WithChildShaped(n, segs[0], Inserted(Child(n, segs[0]), segs[1..], entry, isPrefix, re));
    }
  }

  /** In a shaped trie one step of a pattern goes to the child of its shape. */
  lemma WalkStep<T>(n: Node<T>, segs: seq<string>)
    requires Shaped(n) && segs != []
    ensures IsWild(segs[0]) ==> Walk(n, segs) == if n.wild.Some? then Walk(n.wild.value.node, segs[1..]) else None
    ensures !IsWild(segs[0]) ==> Walk(n, segs) == if segs[0] in n.children then Walk(n.children[segs[0]], segs[1..])
              else None
  {
  }

  lemma WalkEmpty<T>(segs: seq<string>, isPrefix: bool)
    ensures At(Empty<T>(), segs, isPrefix) == None
  {
  }

  lemma SameShapeTail(a: seq<string>, b: seq<string>)
    requires |a| > 0 && |b| > 0
    ensures SameShape(a, b) <==> SameSeg(a[0], b[0]) && SameShape(a[1..], b[1..])
  {
    if SameShape(a[1..], b[1..]) && SameSeg(a[0], b[0]) {
      forall i | 0 <= i < |a| ensures SameSeg(a[i], b[i]) {
        if i > 0 { assert a[i] == a[1..][i - 1] && b[i] == b[1..][i - 1]; }
      }
    }
  }

  /** One level of the trie as a map: replacing a child changes only the patterns that start with its shape. */
  lemma WithChildAt<T>(n: Node<T>, seg: string, c: Node<T>, qs: seq<string>, q: bool)
    requires Shaped(n) && Shaped(c)
    ensures qs == [] ==> At(WithChild(n, seg, c), qs, q) == At(n, qs, q)
    ensures qs != [] && SameSeg(seg, qs[0]) ==> At(WithChild(n, seg, c), qs, q) == At(c, qs[1..], q)
    ensures qs != [] && !SameSeg(seg, qs[0]) ==> At(WithChild(n, seg, c), qs, q) == At(n, qs, q)
  {
    WithChildShaped(n, seg, c);
    if qs != [] {
      WalkStep(n, qs);
      WalkStep(WithChild(n, seg, c), qs);
    }
  }

  lemma ChildAt<T>(n: Node<T>, seg: string, qs: seq<string>, q: bool)
    requires Shaped(n) && qs != [] && SameSeg(seg, qs[0])
    ensures At(n, qs, q) == At(Child(n, seg), qs[1..], q)
  {
    WalkStep(n, qs);
    WalkEmpty<T>(qs[1..], q);
  }

  lemma ThrownAt<T>(n: Node<T>, seg: string, qs: seq<string>, q: bool)
    requires Shaped(n) && IsWild(seg) && n.wild.None?
    ensures At(Thrown(n, seg), qs, q) == At(n, qs, q)
  {
    if qs != [] {
      assert Shaped(Thrown(n, seg));
      WalkStep(n, qs);
      WalkStep(Thrown(n, seg), qs);
      WalkEmpty<T>(qs[1..], q);
    }
  }

  /** Insertion is an update of that map; an insertion that throws leaves it as it was. */
  lemma {:induction false} InsertedAt<T>(n: Node<T>, segs: seq<string>, entry: T, isPrefix: bool, re: Regexes,
                                         qs: seq<string>, q: bool)
    requires Shaped(n)
    ensures At(Inserted(n, segs, entry, isPrefix, re), qs, q)
         == if !InsertFails(n, segs, re) && SameShape(segs, qs) && q == isPrefix then Some(entry) else At(n, qs, q)
    decreases |segs|
  {
    if segs == [] {
    } else if Throws(n, segs[0], re) {
      ThrownAt(n, segs[0], qs, q);
    } else {
      var c := Child(n, segs[0]);
      ChildShaped(n, segs[0]);
      InsertedShaped(c, segs[1..], entry, isPrefix, re);
      WithChildAt(n, segs[0], Inserted(c, segs[1..], entry, isPrefix, re), qs, q);
      if qs != [] {
        SameShapeTail(segs, qs);
        if SameSeg(segs[0], qs[0]) {
          InsertedAt(c, segs[1..], entry, isPrefix, re, qs[1..], q);
          ChildAt(n, segs[0], qs, q);
        }
      }
    }
  }

  /** An insertion that throws has always changed the trie by then. */
  lemma {:induction false} FailedInsertChanges<T>(n: Node<T>, segs: seq<string>, entry: T, isPrefix: bool, re: Regexes)
    requires InsertFails(n, segs, re)
    ensures Inserted(n, segs, entry, isPrefix, re) != n
    decreases |segs|
  {
    if !Throws(n, segs[0], re) {
      var c := Child(n, segs[0]);
      FailedInsertChanges(c, segs[1..], entry, isPrefix, re);
      var c' := Inserted(c, segs[1..], entry, isPrefix, re);
      assert Child(WithChild(n, segs[0], c'), segs[0]) == c';
    }
  }

  lemma {:induction false} RemovedShaped<T>(n: Node<T>, segs: seq<string>, isPrefix: bool)
    requires Shaped(n)
    ensures Shaped(Removed(n, segs, isPrefix))
    decreases |segs|
  {
    if segs == [] {
    } else if segs[0] in n.children {
      RemovedShaped(n.children[segs[0]], segs[1..], isPrefix);
    } else if n.wild.Some? && IsWild(segs[0]) {
      RemovedShaped(n.wild.value.node, segs[1..], isPrefix);
    }
  }

  predicate HasChild<T>(n: Node<T>, seg: string) { if IsWild(seg) then n.wild.Some? else seg in n.children }

  lemma RemovedStep<T>(n: Node<T>, segs: seq<string>, isPrefix: bool)
    requires Shaped(n) && segs != []
    ensures HasChild(n, segs[0]) ==>
              Removed(n, segs, isPrefix) == WithChild(n, segs[0], Removed(Child(n, segs[0]), segs[1..], isPrefix))
    ensures !HasChild(n, segs[0]) ==> Removed(n, segs, isPrefix) == n
  {
  }

  /** Removal takes exactly one key out of the map. */
  lemma {:induction false} RemovedAt<T>(n: Node<T>, segs: seq<string>, isPrefix: bool, qs: seq<string>, q: bool)
    requires Shaped(n)
    ensures At(Removed(n, segs, isPrefix), qs, q)
         == if SameShape(segs, qs) && q == isPrefix then None else At(n, qs, q)
    decreases |segs|
  {
    if segs != [] {
      RemovedStep(n, segs, isPrefix);
      if qs != [] { SameShapeTail(segs, qs); }
      if HasChild(n, segs[0]) {
        var c := Child(n, segs[0]);
        ChildShaped(n, segs[0]);
        RemovedShaped(c, segs[1..], isPrefix);
        WithChildAt(n, segs[0], Removed(c, segs[1..], isPrefix), qs, q);
        if qs != [] && SameSeg(segs[0], qs[0]) {
          RemovedAt(c, segs[1..], isPrefix, qs[1..], q);
          ChildAt(n, segs[0], qs, q);
        }
      } else if qs != [] && SameSeg(segs[0], qs[0]) {
        WalkStep(n, qs);
      }
    }
  }

  // ---- requests ------------------------------------------------------------------------

  /** The segments `find` pops: one leading slash and one trailing slash are ignored, inner empty segments are not. */
  function RequestSegs(path: string): (segs: seq<string>)
  {
    Popped(if path != "" && path[0] == '/' then path[1..] else path)
  }

  function Popped(rest: string): (segs: seq<string>) { DropTrailingEmpty(Fields(rest, '/')) }

  /** step_to_child_: a literal child always wins, and nothing ever backtracks to the wildcard. */
  function StepTo<T>(n: Node<T>, seg: string, re: Regexes): (r: Option<(Node<T>, Captures)>)
  {
    if seg in n.children then Some((n.children[seg], []))
    else if n.wild.None? then None
    else if n.wild.value.constraint != "" && !re.matches(n.wild.value.constraint, seg) then None
    else Some((n.wild.value.node, [(n.wild.value.name, seg)]))
  }

  /** The node reached by all of `segs`, with the captures made on the way. */
  function Reach<T>(n: Node<T>, segs: seq<string>, re: Regexes): (r: Option<(Node<T>, Captures)>)
  {
    if segs == [] then Some((n, []))
    else
      var before := Reach(n, segs[..|segs| - 1], re);
      if before.None? then None
      else
        var step := StepTo(before.value.0, segs[|segs| - 1], re);
        if step.None? then None else Some((step.value.0, before.value.1 + step.value.1))
  }

  /** The prefix terminus furthest down among the nodes reached by at most `k` segments. */
  function Deepest<T>(n: Node<T>, segs: seq<string>, k: nat, re: Regexes): (r: Option<Match<T>>)
    requires k <= |segs|
  {
    var here := Reach(n, segs[..k], re);
    if here.Some? && here.value.0.prefix.Some? then Some(Match(here.value.0.prefix.value, here.value.1, true))
    else if k == 0 then None
    else Deepest(n, segs, k - 1, re)
  }

  /** An exact terminus at the end of the request, else the deepest prefix above it. */
  function Search<T>(n: Node<T>, segs: seq<string>, re: Regexes): (r: Option<Match<T>>)
  {
    var there := Reach(n, segs, re);
    if there.Some? && there.value.0.exact.Some? then Some(Match(there.value.0.exact.value, there.value.1, false))
    else Deepest(n, segs, |segs|, re)
  }

  /** pop_next_segment_. */
  function AfterSegment(rest: string): (r: string)
    ensures rest != "" ==> |r| < |rest|
  {
    var i := FindFrom(rest, '/', 0);
    if i >= |rest| then "" else rest[i + 1..]
  }

  lemma DropAfter(f: string, fs: seq<string>)
    requires fs != []
    ensures DropTrailingEmpty([f] + fs) == [f] + DropTrailingEmpty(fs)
  {
    assert fs[|fs| - 1] == ([f] + fs)[|fs|];
    assert ([f] + fs)[..|fs|] == [f] + fs[..|fs| - 1];
  }

  lemma PopSegment(rest: string)
    requires rest != ""
    ensures Popped(rest) == [rest[..FindFrom(rest, '/', 0)]] + Popped(AfterSegment(rest))
  {
    var i := FindFrom(rest, '/', 0);
    if i == |rest| {
      assert Fields(rest, '/') == [rest] && rest[..i] == rest;
      assert Fields("", '/') == [""];
    } else {
      DropAfter(rest[..i], Fields(rest[i + 1..], '/'));
    }
  }

  lemma PoppedEmpty()
    ensures Popped("") == []
  {
  }

  lemma {:induction false} Stuck<T>(n: Node<T>, segs: seq<string>, k: nat, j: nat, re: Regexes)
    requires k < j <= |segs| && Reach(n, segs[..k + 1], re).None?
    ensures Reach(n, segs[..j], re).None? && Deepest(n, segs, j, re) == Deepest(n, segs, k, re)
  {
    if j > k + 1 {
      Stuck(n, segs, k, j - 1, re);
      assert segs[..j][..j - 1] == segs[..j - 1];
    }
  }

  lemma ReachStep<T>(n: Node<T>, done: seq<string>, seg: string, re: Regexes)
    requires Reach(n, done, re).Some?
    ensures Reach(n, done + [seg], re)
         == (var step := StepTo(Reach(n, done, re).value.0, seg, re);
             if step.None? then None else Some((step.value.0, Reach(n, done, re).value.1 + step.value.1)))
  {
    assert (done + [seg])[..|done|] == done;
  }

  /** The request is `done` followed by what `rest` still holds; the walk stands where `done` leads. */
  ghost predicate Walked<T>(n: Node<T>, segs: seq<string>, done: seq<string>, rest: string,
                            node: Node<T>, caps: Captures, best: Option<Match<T>>, re: Regexes)
  {
    segs == done + Popped(rest) && Reach(n, done, re) == Some((node, caps)) && best == Deepest(n, done, |done|, re)
  }

  lemma {:induction false} DeepestOfPrefix<T>(n: Node<T>, segs: seq<string>, done: seq<string>, k: nat, re: Regexes)
    requires done <= segs && k <= |done|
    ensures Deepest(n, segs, k, re) == Deepest(n, done, k, re)
  {
    assert segs[..k] == done[..k];
    if k > 0 { DeepestOfPrefix(n, segs, done, k - 1, re); }
  }

  lemma WalkStuck<T>(n: Node<T>, segs: seq<string>, done: seq<string>, seg: string, re: Regexes)
    requires done + [seg] <= segs && Reach(n, done + [seg], re).None?
    ensures Search(n, segs, re) == Deepest(n, done, |done|, re)
  {
    var k := |done|;
    assert segs[..k + 1] == done + [seg] && segs[..|segs|] == segs;
    Stuck(n, segs, k, |segs|, re);
    DeepestOfPrefix(n, segs, done, k, re);
  }

  function Best<T>(node: Node<T>, caps: Captures, best: Option<Match<T>>): (r: Option<Match<T>>)
  {
    if node.prefix.Some? then Some(Match(node.prefix.value, caps, true)) else best
  }

  lemma WalkStarts<T>(root: Node<T>, path: string, rest: string, re: Regexes)
    requires rest == if path != "" && path[0] == '/' then path[1..] else path
    ensures Walked(root, RequestSegs(path), [], rest, root, [], Best(root, [], None), re)
  {
    assert [] + Popped(rest) == Popped(rest);
  }

  lemma WalkEnds<T>(root: Node<T>, segs: seq<string>, done: seq<string>, node: Node<T>, caps: Captures,
                    best: Option<Match<T>>, re: Regexes)
    requires Walked(root, segs, done, "", node, caps, best, re)
    ensures Search(root, segs, re) == if node.exact.Some? then Some(Match(node.exact.value, caps, false)) else best
  {
    PoppedEmpty();
    assert segs == done;
  }

  lemma WalkOn<T>(n: Node<T>, segs: seq<string>, done: seq<string>, rest: string, seg: string,
                  node: Node<T>, caps: Captures, best: Option<Match<T>>, re: Regexes)
    requires Walked(n, segs, done, rest, node, caps, best, re)
    requires rest != "" && seg == rest[..FindFrom(rest, '/', 0)]
    ensures StepTo(node, seg, re).None? ==> Search(n, segs, re) == best
    ensures StepTo(node, seg, re).Some? ==>
              var r := StepTo(node, seg, re).value;
              Walked(n, segs, done + [seg], AfterSegment(rest), r.0, caps + r.1, Best(r.0, caps + r.1, best), re)
  {
    hide Popped, AfterSegment, StepTo;
    PopSegment(rest);
    var next := done + [seg];
    var left := Popped(AfterSegment(rest));
    assert done + ([seg] + left) == next + left;
    assert next[..|next|] == next;
    ReachStep(n, done, seg, re);
    DeepestOfPrefix(n, next, done, |done|, re);
    if StepTo(node, seg, re).None? { WalkStuck(n, segs, done, seg, re); }
  }

  /** segment_trie::find walks once from the root and is `Search`. */
  method Find<T>(root: Node<T>, path: string, re: Regexes) returns (r: Option<Match<T>>)
    ensures r == Search(root, RequestSegs(path), re)
  {
    hide Walked, Search, RequestSegs, StepTo, FindFrom, AfterSegment;
    var node, rest := root, path;
    if rest != "" && rest[0] == '/' { rest := rest[1..]; }
    ghost var segs := RequestSegs(path);
    WalkStarts(root, path, rest, re);
    if rest == "" {
      WalkEnds(root, segs, [], root, [], Best(root, [], None), re);
      if node.exact.Some? { return Some(Match(node.exact.value, [], false)); }
      if node.prefix.Some? { return Some(Match(node.prefix.value, [], true)); }
      return None;
    }
    var best := if node.prefix.Some? then Some(Match(node.prefix.value, [], true)) else None;
    var caps: Captures := [];
    ghost var done: seq<string> := [];
    while rest != ""
      invariant Walked(root, segs, done, rest, node, caps, best, re)
      invariant rest == "" ==> node.exact.None?
      decreases |rest|
    {
      var seg := rest[..FindFrom(rest, '/', 0)];
      WalkOn(root, segs, done, rest, seg, node, caps, best, re);
      var step := StepTo(node, seg, re);
      if step.None? { return best; }
      node, caps, rest := step.value.0, caps + step.value.1, AfterSegment(rest);
      done := done + [seg];
      if node.prefix.Some? { best := Some(Match(node.prefix.value, caps, true)); }
      if rest == "" && node.exact.Some? {
        WalkEnds(root, segs, done, node, caps, best, re);
        return Some(Match(node.exact.value, caps, false));
      }
    }
    WalkEnds(root, segs, done, node, caps, best, re);
    r := best;
  }

  // ---- a registered prefix serves everything below it ------------------------------------

  lemma {:induction false} WalkAppend<T>(n: Node<T>, segs: seq<string>, seg: string)
    ensures Walk(n, segs + [seg]) == if Walk(n, segs).None? then None else Walk(Walk(n, segs).value, [seg])
    decreases |segs|
  {
    if segs == [] {
      assert segs + [seg] == [seg];
    } else {
      assert (segs + [seg])[1..] == segs[1..] + [seg];
      if segs[0] in n.children {
        WalkAppend(n.children[segs[0]], segs[1..], seg);
      } else if n.wild.Some? && IsWild(segs[0]) {
        WalkAppend(n.wild.value.node, segs[1..], seg);
      }
    }
  }

  lemma {:induction false} LiteralReach<T>(n: Node<T>, segs: seq<string>, re: Regexes)
    requires Walk(n, segs).Some? && forall i :: 0 <= i < |segs| ==> !IsWild(segs[i])
    ensures Reach(n, segs, re) == Some((Walk(n, segs).value, []))
  {
    if segs != [] {
      var k := |segs| - 1;
      var before, seg := segs[..k], segs[k];
      assert segs == before + [seg];
      WalkAppend(n, before, seg);
      LiteralReach(n, before, re);
      ReachStep(n, before, seg, re);
      assert [seg][1..] == [];
      var none: Captures := [];
      assert none + [] == none;
      assert StepTo(Walk(n, before).value, seg, re) == Some((Walk(n, segs).value, []));
    }
  }

  lemma {:induction false} DeepestFloor<T>(n: Node<T>, segs: seq<string>, k: nat, j: nat, re: Regexes)
    requires k <= j <= |segs| && Reach(n, segs[..k], re).Some? && Reach(n, segs[..k], re).value.0.prefix.Some?
    ensures Deepest(n, segs, j, re).Some?
  {
    var here := Reach(n, segs[..j], re);
    if k < j && !(here.Some? && here.value.0.prefix.Some?) { DeepestFloor(n, segs, k, j - 1, re); }
  }

  /** No request at or below a literal prefix route goes unanswered, whatever else is registered. */
  lemma PrefixCovers<T>(n: Node<T>, segs: seq<string>, more: seq<string>, re: Regexes)
    requires HasTerminusAt(n, segs, true) && forall i :: 0 <= i < |segs| ==> !IsWild(segs[i])
    ensures Search(n, segs + more, re).Some?
    ensures At(n, segs, false).None? ==> Search(n, segs, re) == Some(Match(At(n, segs, true).value, [], true))
  {
    LiteralReach(n, segs, re);
    assert (segs + more)[..|segs|] == segs && segs[..|segs|] == segs;
    DeepestFloor(n, segs + more, |segs|, |segs + more|, re);
  }

  // ---- what a request loses to an insertion that throws -----------------------------------

  function Prepend<T>(c: Captures, m: Option<Match<T>>): (r: Option<Match<T>>)
  {
    if m.None? then None else Some(m.value.(captures := c + m.value.captures))
  }

  function HereOnly<T>(n: Node<T>): (r: Option<Match<T>>)
  {
    if n.prefix.Some? then Some(Match(n.prefix.value, [], true)) else None
  }

  /** The search from the front: what the child finds, else the prefix here. */
  function FromFront<T>(n: Node<T>, qs: seq<string>, re: Regexes): (r: Option<Match<T>>)
    decreases |qs|
  {
    if qs == [] then if n.exact.Some? then Some(Match(n.exact.value, [], false)) else HereOnly(n)
    else
      var step := StepTo(n, qs[0], re);
      var inner := if step.None? then None else Prepend(step.value.1, FromFront(step.value.0, qs[1..], re));
      if inner.Some? then inner else HereOnly(n)
  }

  lemma {:induction false} ReachFront<T>(n: Node<T>, q: string, qs: seq<string>, re: Regexes)
    ensures Reach(n, [q] + qs, re)
         == (var step := StepTo(n, q, re);
             if step.None? then None
             else
               var r := Reach(step.value.0, qs, re);
               if r.None? then None else Some((r.value.0, step.value.1 + r.value.1)))
  {
    hide StepTo;
    if qs == [] {
      assert [q] + qs == [] + [q];
      ReachStep(n, [], q, re);
      var none: Captures := [];
      assert StepTo(n, q, re).Some? ==> none + StepTo(n, q, re).value.1 == StepTo(n, q, re).value.1 + none;
    } else {
      var k := |qs| - 1;
      assert ([q] + qs)[..k + 1] == [q] + qs[..k];
      ReachFront(n, q, qs[..k], re);
      if StepTo(n, q, re).Some? {
        var c := StepTo(n, q, re).value;
        var before := Reach(c.0, qs[..k], re);
        if before.Some? && StepTo(before.value.0, qs[k], re).Some? {
          var last := StepTo(before.value.0, qs[k], re).value;
          assert (c.1 + before.value.1) + last.1 == c.1 + (before.value.1 + last.1);
        }
      }
    }
  }

  lemma {:induction false} DeepestFront<T>(n: Node<T>, q: string, qs: seq<string>, k: nat, re: Regexes)
    requires k <= |qs| && StepTo(n, q, re).Some?
    ensures Deepest(n, [q] + qs, k + 1, re)
         == (var step := StepTo(n, q, re).value;
             var inner := Prepend(step.1, Deepest(step.0, qs, k, re));
             if inner.Some? then inner else HereOnly(n))
  {
    hide StepTo;
    assert ([q] + qs)[..k + 1] == [q] + qs[..k];
    ReachFront(n, q, qs[..k], re);
    if k == 0 {
      assert ([q] + qs)[..0] == [];
    } else {
      DeepestFront(n, q, qs, k - 1, re);
    }
  }

  lemma {:induction false} SearchFromFront<T>(n: Node<T>, qs: seq<string>, re: Regexes)
    ensures Search(n, qs, re) == FromFront(n, qs, re)
    decreases |qs|
  {
    hide StepTo;
    if qs == [] {
      assert qs[..0] == qs;
    } else {
      var q, rest := qs[0], qs[1..];
      assert qs == [q] + rest;
      ReachFront(n, q, rest, re);
      if StepTo(n, q, re).Some? {
        SearchFromFront(StepTo(n, q, re).value.0, rest, re);
        DeepestFront(n, q, rest, |rest|, re);
      } else {
        assert qs[..1] == [q] + [];
        ReachFront(n, q, [], re);
        assert qs[..0] == [];
        Stuck(n, qs, 0, |qs|, re);
        assert qs[..|qs|] == qs;
      }
    }
  }

  predicate Accepts<T>(w: Wild<T>, seg: string, re: Regexes) { w.constraint == "" || re.matches(w.constraint, seg) }

  /** The request steps onto a literal node the insertion created, and the wildcard beside it had an answer. */
  predicate Lost<T>(n: Node<T>, segs: seq<string>, qs: seq<string>, re: Regexes)
    decreases |segs|
  {
    && segs != [] && qs != [] && !Throws(n, segs[0], re)
    && if IsWild(segs[0]) then
         && n.wild.Some? && qs[0] !in n.children && Accepts(n.wild.value, qs[0], re)
         && Lost(n.wild.value.node, segs[1..], qs[1..], re)
       else if segs[0] in n.children then qs[0] == segs[0] && Lost(n.children[segs[0]], segs[1..], qs[1..], re)
       else
         && qs[0] == segs[0] && n.wild.Some? && Accepts(n.wild.value, qs[0], re)
         && FromFront(n.wild.value.node, qs[1..], re).Some?
  }

  lemma {:induction false} EmptyFindsNothing<T>(qs: seq<string>, re: Regexes)
    ensures FromFront(Empty<T>(), qs, re) == None
  {
  }

  lemma {:induction false} EmptyLosesNothing<T>(segs: seq<string>, qs: seq<string>, re: Regexes)
    ensures !Lost(Empty<T>(), segs, qs, re)
  {
  }

  /** What is lost went through a wildcard, and what is found instead, if anything, captures less. */
  ghost predicate Worse<T>(was: Option<Match<T>>, now: Option<Match<T>>)
  {
    was.Some? && was.value.captures != [] && (now.Some? ==> |now.value.captures| < |was.value.captures|)
  }

  lemma WorseAbove<T>(c: Captures, was: Option<Match<T>>, now: Option<Match<T>>, n: Node<T>)
    requires Worse(was, now)
    ensures var a, b := Prepend(c, was), Prepend(c, now); Worse(a, if b.Some? then b else HereOnly(n))
  {
  }

  /** An insertion that throws changes the answer of a request exactly when the request is lost to it. */
  lemma {:induction false} TornExactly<T>(n: Node<T>, segs: seq<string>, entry: T, isPrefix: bool, re: Regexes,
                                          qs: seq<string>)
    requires Shaped(n) && InsertFails(n, segs, re)
    ensures var was, now := FromFront(n, qs, re), FromFront(Inserted(n, segs, entry, isPrefix, re), qs, re);
            if Lost(n, segs, qs, re) then Worse(was, now) else now == was
    decreases |segs|
  {
    var seg := segs[0];
    if Throws(n, seg, re) {
      if qs != [] { EmptyFindsNothing<T>(qs[1..], re); }
    } else if qs != [] {
      var c := Child(n, seg);
      var c' := Inserted(c, segs[1..], entry, isPrefix, re);
      ChildShaped(n, seg);
      TornExactly(c, segs[1..], entry, isPrefix, re, qs[1..]);
      EmptyFindsNothing<T>(qs[1..], re);
      EmptyLosesNothing<T>(segs[1..], qs[1..], re);
      TornStep(n, seg, c', qs, re);
      hide FromFront, Inserted;
      var was, now := FromFront(c, qs[1..], re), FromFront(c', qs[1..], re);
      if Lost(c, segs[1..], qs[1..], re) {
        WorseAbove([], was, now, n);
        if n.wild.Some? { WorseAbove([(n.wild.value.name, qs[0])], was, now, n); }
      }
    }
  }

  /** One level of the trie with one child replaced, as a request sees it. */
  lemma TornStep<T>(n: Node<T>, seg: string, c': Node<T>, qs: seq<string>, re: Regexes)
    requires Shaped(n) && qs != []
    ensures var n' := WithChild(n, seg, c');
            var through := FromFront(c', qs[1..], re);
            if !IsWild(seg) && qs[0] == seg then
              FromFront(n', qs, re) == (var i := Prepend([], through); if i.Some? then i else HereOnly(n))
            else if IsWild(seg) && qs[0] !in n.children && Accepts(WildChild(n, seg), qs[0], re) then
              FromFront(n', qs, re)
                  == (var i := Prepend([(WildChild(n, seg).name, qs[0])], through); if i.Some? then i else HereOnly(n))
            else FromFront(n', qs, re) == FromFront(n, qs, re)
  {
  }
}
