/** The linked lists of include/queue.h. Every element stores the address of the field that points at
    it, so that it can be taken out without knowing its list. */
module Queue {
  import opened Options

  /** Address of a pointer field: the first field of the list head, or the next field of an element. */
  datatype Link = HeadFirst | NextOf(node: Node)

  class Node {
    var next: Node?
    var prev: Link

    constructor ()
      ensures next == null
    {
      next, prev := null, HeadFirst;
    }
  }

  ghost function At(s: seq<Node>, i: int): Node?
  {
    if 0 <= i < |s| then s[i] else null
  }

  /** The field that points at position i. */
  ghost function FieldBefore(s: seq<Node>, i: int): Link
    requires i <= |s|
  {
    if i <= 0 then HeadFirst else NextOf(s[i - 1])
  }

  /** The pointers next[i] and prev[i] of the elements s[i] spell out the sequence s, forwards and
      backwards. */
  ghost predicate Shape(first: Node?, s: seq<Node>, next: seq<Node?>, prev: seq<Link>)
  {
    && |next| == |s| && |prev| == |s|
    && Distinct(s)
    && first == At(s, 0)
    && (forall i :: 0 <= i < |s| ==> next[i] == At(s, i + 1))
    && (forall i :: 0 <= i < |s| ==> prev[i] == FieldBefore(s, i))
  }

  ghost function Nexts(s: seq<Node>): (r: seq<Node?>)
    reads s
    ensures |r| == |s| && forall i :: 0 <= i < |s| ==> r[i] == s[i].next
  {
    seq(|s|, i requires 0 <= i < |s| reads s => s[i].next)
  }

  ghost function Prevs(s: seq<Node>): (r: seq<Link>)
    reads s
    ensures |r| == |s| && forall i :: 0 <= i < |s| ==> r[i] == s[i].prev
  {
    seq(|s|, i requires 0 <= i < |s| reads s => s[i].prev)
  }

  ghost predicate Chained(first: Node?, s: seq<Node>)
    reads s
  {
    Shape(first, s, Nexts(s), Prevs(s))
  }

  /** What the pointers around position i of a chain hold. */
  lemma ChainFacts(first: Node?, s: seq<Node>, i: int)
    requires Chained(first, s) && 0 <= i <= |s|
    ensures Distinct(s) && first == At(s, 0) && Shape(first, s, Nexts(s), Prevs(s))
    ensures i < |s| ==> s[i].next == At(s, i + 1) && s[i].prev == FieldBefore(s, i)
    ensures 0 < i ==> s[i - 1].next == At(s, i)
  {
  }

  /** Element e still names its two former neighbours at position i, which are neighbours now. */
  ghost predicate LeftFrom(e: Node, s: seq<Node>, i: int)
    reads e
  {
    0 <= i <= |s| && e !in s && e.next == At(s, i) && e.prev == FieldBefore(s, i)
  }

  function Inserted<T>(s: seq<T>, i: nat, e: T): (s': seq<T>)
    requires i <= |s|
    ensures |s'| == |s| + 1 && s'[i] == e
    ensures forall k :: 0 <= k < i ==> s'[k] == s[k]
    ensures forall k :: i < k <= |s| ==> s'[k] == s[k - 1]
  {
    s[..i] + [e] + s[i..]
  }

  function Deleted<T>(s: seq<T>, i: nat): (s': seq<T>)
    requires i < |s|
    ensures |s'| == |s| - 1
    ensures forall k :: 0 <= k < i ==> s'[k] == s[k]
    ensures forall k :: i <= k < |s| - 1 ==> s'[k] == s[k + 1]
  {
    s[..i] + s[i + 1..]
  }

  /** Redirecting the fields around position i to e puts e at position i. */
  lemma ShapeAfterInsert(first: Node?, s: seq<Node>, next: seq<Node?>, prev: seq<Link>, i: nat, e: Node)
    requires Shape(first, s, next, prev) && i <= |s| && e !in s
    ensures var next1 := if i == 0 then next else next[i - 1 := e];
            var prev1 := if i == |s| then prev else prev[i := NextOf(e)];
            Shape(if i == 0 then e else first, Inserted(s, i, e),
                  Inserted(next1, i, At(s, i)), Inserted(prev1, i, FieldBefore(s, i)))
  {
    hide Inserted;
    var t := Inserted(s, i, e);
    var next1 := if i == 0 then next else next[i - 1 := e];
    var prev1 := if i == |s| then prev else prev[i := NextOf(e)];
    var n, p := Inserted(next1, i, At(s, i)), Inserted(prev1, i, FieldBefore(s, i));
    forall k | 0 <= k < |t| ensures n[k] == At(t, k + 1) && p[k] == FieldBefore(t, k) {
    }
  }

  /** Joining the two neighbours of position i takes its element out. */
  lemma ShapeAfterRemove(first: Node?, s: seq<Node>, next: seq<Node?>, prev: seq<Link>, i: nat)
    requires Shape(first, s, next, prev) && i < |s|
    ensures var next1 := if i == 0 then next else next[i - 1 := At(s, i + 1)];
            var prev1 := if i + 1 == |s| then prev else prev[i + 1 := FieldBefore(s, i)];
            Shape(if i == 0 then At(s, 1) else first, Deleted(s, i), Deleted(next1, i), Deleted(prev1, i))
    ensures s[i] !in Deleted(s, i)
    ensures next[i] == At(Deleted(s, i), i) && prev[i] == FieldBefore(Deleted(s, i), i)
  {
    hide Deleted;
    var t := Deleted(s, i);
    var next1 := if i == 0 then next else next[i - 1 := At(s, i + 1)];
    var prev1 := if i + 1 == |s| then prev else prev[i + 1 := FieldBefore(s, i)];
    var n, p := Deleted(next1, i), Deleted(prev1, i);
    forall k | 0 <= k < |t| ensures n[k] == At(t, k + 1) && p[k] == FieldBefore(t, k) {
    }
  }

  /** ShapeAfterInsert for the pointers now in memory. */
  lemma InsertedHere(first0: Node?, first: Node?, s: seq<Node>, next: seq<Node?>, prev: seq<Link>, i: nat, e: Node)
    requires Shape(first0, s, next, prev) && |next| == |s| == |prev| && i <= |s| && e !in s
    requires first == if i == 0 then e else first0
    requires e.next == At(s, i) && e.prev == FieldBefore(s, i)
    requires forall k {:trigger s[k].next} :: 0 <= k < |s| ==> s[k].next == if k == i - 1 then e else next[k]
    requires forall k {:trigger s[k].prev} :: 0 <= k < |s| ==> s[k].prev == if k == i then NextOf(e) else prev[k]
    ensures Chained(first, Inserted(s, i, e))
  {
    hide Inserted, Shape;
    var t := Inserted(s, i, e);
    var next1 := if i == 0 then next else next[i - 1 := e];
    var prev1 := if i == |s| then prev else prev[i := NextOf(e)];
    ShapeAfterInsert(first0, s, next, prev, i, e);
    assert Nexts(t) == Inserted(next1, i, At(s, i));
    assert Prevs(t) == Inserted(prev1, i, FieldBefore(s, i));
  }

  lemma RemovedHere(first0: Node?, first: Node?, s: seq<Node>, next: seq<Node?>, prev: seq<Link>, i: nat)
    requires Shape(first0, s, next, prev) && |next| == |s| == |prev| && i < |s|
    requires first == if i == 0 then At(s, 1) else first0
    requires forall k {:trigger s[k].next} :: 0 <= k < |s| ==> s[k].next == if k == i - 1 then At(s, i + 1) else next[k]
    requires forall k {:trigger s[k].prev} ::
               0 <= k < |s| ==> s[k].prev == if k == i + 1 then FieldBefore(s, i) else prev[k]
    ensures Chained(first, Deleted(s, i)) && LeftFrom(s[i], Deleted(s, i), i)
    ensures FieldBefore(Deleted(s, i), |s| - 1) == FieldBefore(s, if i + 1 == |s| then i else |s|)
  {
    hide Deleted, Shape;
    var t := Deleted(s, i);
    var next1 := if i == 0 then next else next[i - 1 := At(s, i + 1)];
    var prev1 := if i + 1 == |s| then prev else prev[i + 1 := FieldBefore(s, i)];
    ShapeAfterRemove(first0, s, next, prev, i);
    assert s[i].next == next[i] && s[i].prev == prev[i];
    assert Nexts(t) == Deleted(next1, i);
    assert Prevs(t) == Deleted(prev1, i);
  }

  lemma SamePointers(first0: Node?, first: Node?, s: seq<Node>, next: seq<Node?>, prev: seq<Link>)
    requires Shape(first0, s, next, prev) && |next| == |s| == |prev| && first == first0
    requires forall k {:trigger s[k].next} :: 0 <= k < |s| ==> s[k].next == next[k]
    requires forall k {:trigger s[k].prev} :: 0 <= k < |s| ==> s[k].prev == prev[k]
    ensures Chained(first, s)
  {
    hide Shape;
    assert Nexts(s) == next && Prevs(s) == prev;
  }

  function Cut<T>(s: seq<T>, i: nat, j: nat): (s': seq<T>)
    requires i <= j <= |s|
    ensures |s'| == |s| - (j - i) && (s' == s <==> i == j)
    ensures forall k :: 0 <= k < i ==> s'[k] == s[k]
    ensures forall k :: i <= k < |s'| ==> s'[k] == s[k + j - i]
  {
    s[..i] + s[j..]
  }

  lemma ShapeFacts(first: Node?, s: seq<Node>, next: seq<Node?>, prev: seq<Link>)
    requires Shape(first, s, next, prev)
    ensures Distinct(s) && |next| == |s| == |prev| && first == At(s, 0)
    ensures forall k :: 0 <= k < |s| ==> next[k] == At(s, k + 1) && prev[k] == FieldBefore(s, k)
  {
  }

  /** Where element k of the shortened list was, and its neighbours now. */
  lemma CutAt(s: seq<Node>, i: nat, j: nat, k: nat)
    requires i <= j <= |s| && k <= |Cut(s, i, j)|
    ensures k < |Cut(s, i, j)| ==> Cut(s, i, j)[k] == s[if k < i then k else k + j - i]
    ensures At(Cut(s, i, j), k) == if k < i then s[k] else At(s, k + j - i)
    ensures FieldBefore(Cut(s, i, j), k) == if k <= i then FieldBefore(s, k) else FieldBefore(s, k + j - i)
  {
  }

  lemma CutDistinct(s: seq<Node>, i: nat, j: nat)
    requires Distinct(s) && i <= j <= |s|
    ensures Distinct(Cut(s, i, j))
  {
  }

  /** ShapeAfterRemove for any stretch of the list. */
  lemma CutHere(first0: Node?, first: Node?, s: seq<Node>, next: seq<Node?>, prev: seq<Link>, i: nat, j: nat)
    requires Shape(first0, s, next, prev) && |next| == |s| == |prev| && i <= j <= |s|
    requires first == if i == 0 then At(s, j) else first0
    requires forall k {:trigger s[k].next} :: 0 <= k < |s| ==> s[k].next == if k == i - 1 then At(s, j) else next[k]
    requires forall k {:trigger s[k].prev} ::
               0 <= k < |s| ==> s[k].prev == if k == j then FieldBefore(s, i) else prev[k]
    ensures Chained(first, Cut(s, i, j))
    ensures FieldBefore(Cut(s, i, j), |Cut(s, i, j)|) == FieldBefore(s, if j == |s| then i else |s|)
  {
    ShapeFacts(first0, s, next, prev);
    CutDistinct(s, i, j);
    CutAt(s, i, j, |Cut(s, i, j)|);
    CutAt(s, i, j, 0);
    hide Shape, Chained, Cut, At, FieldBefore, Distinct;
    forall k: nat | k < |Cut(s, i, j)| ensures PointsOn(Cut(s, i, j), k) {
      CutPointers(s, next, prev, i, j, k);
    }
    MakeChain(first, Cut(s, i, j));
  }

  /** Element k points at its neighbours. */
  ghost predicate PointsOn(s: seq<Node>, k: nat)
    requires k < |s|
    reads s
  {
    s[k].next == At(s, k + 1) && s[k].prev == FieldBefore(s, k)
  }

  lemma MakeChain(first: Node?, s: seq<Node>)
    requires Distinct(s) && first == At(s, 0) && forall k: nat :: k < |s| ==> PointsOn(s, k)
    ensures Chained(first, s)
  {
    forall k | 0 <= k < |s| ensures Nexts(s)[k] == At(s, k + 1) && Prevs(s)[k] == FieldBefore(s, k) {
      assert PointsOn(s, k);
    }
  }

  /** The pointers of element k of the shortened list. */
  lemma CutPointers(s: seq<Node>, next: seq<Node?>, prev: seq<Link>, i: nat, j: nat, k: nat)
    requires |next| == |s| == |prev| && i <= j <= |s| && k < |Cut(s, i, j)|
    requires forall k :: 0 <= k < |s| ==> next[k] == At(s, k + 1) && prev[k] == FieldBefore(s, k)
    requires forall k {:trigger s[k].next} :: 0 <= k < |s| ==> s[k].next == if k == i - 1 then At(s, j) else next[k]
    requires forall k {:trigger s[k].prev} ::
               0 <= k < |s| ==> s[k].prev == if k == j then FieldBefore(s, i) else prev[k]
    ensures PointsOn(Cut(s, i, j), k)
  {
    CutAt(s, i, j, k);
    CutAt(s, i, j, k + 1);
    var m := if k < i then k else k + j - i;
    assert Cut(s, i, j)[k] == s[m];
    hide Cut, FieldBefore;
    assert s[m].next == if m == i - 1 then At(s, j) else next[m];
    assert s[m].prev == if m == j then FieldBefore(s, i) else prev[m];
  }

  /** Following the pointers from the head goes round in a circle, so they spell no list. */
  lemma NoList(first: Node?, s0: seq<Node>, s: seq<Node>, i: nat, j: nat)
    requires Distinct(s0) && j < i <= |s0| && first == At(s0, 0)
    requires forall k {:trigger s0[k].next} :: 0 <= k < i ==> s0[k].next == if k == i - 1 then s0[j] else s0[k + 1]
    ensures !Chained(first, s)
  {
    if Chained(first, s) {
      SameStart(first, s0, s, i, i - 1);
      ChainFacts(first, s, i);
      assert false;
    }
  }

  lemma Circle(first0: Node?, first: Node?, s0: seq<Node>, next: seq<Node?>, prev: seq<Link>, i: nat, j: nat)
    requires Shape(first0, s0, next, prev) && |next| == |s0| && j < i <= |s0|
    requires first == if i == 0 then At(s0, j) else first0
    requires forall k {:trigger s0[k].next} :: 0 <= k < |s0| ==> s0[k].next == if k == i - 1 then At(s0, j) else next[k]
    ensures forall s: seq<Node> :: !Chained(first, s)
  {
    ShapeFacts(first0, s0, next, prev);
    hide Shape, Chained, Distinct;
    forall s: seq<Node> ensures !Chained(first, s) {
      NoList(first, s0, s, i, j);
    }
  }

  lemma SameStart(first: Node?, s0: seq<Node>, s: seq<Node>, i: nat, n: nat)
    requires Chained(first, s) && n < i <= |s0| && first == At(s0, 0)
    requires forall k {:trigger s0[k].next} :: 0 <= k < i - 1 ==> s0[k].next == s0[k + 1]
    ensures n < |s| && forall k :: 0 <= k <= n ==> s[k] == s0[k]
  {
    if n > 0 {
      SameStart(first, s0, s, i, n - 1);
      ChainFacts(first, s, n);
    } else {
      ChainFacts(first, s, 0);
    }
  }

  /* ---- Removing an element that names any two nodes ---- */

  /** next is the element at j, and prev the field that points at position i. */
  ghost predicate NamePlaces(next: Node?, prev: Link, s: seq<Node>, i: nat, j: nat)
  {
    i <= |s| && j <= |s| && next == At(s, j) && prev == FieldBefore(s, i)
  }

  /** next and prev name one place of s, or elements neither of which is in s. */
  ghost predicate Harmless(next: Node?, prev: Link, s: seq<Node>)
  {
    || (exists i: nat :: NamePlaces(next, prev, s, i, i))
    || (next != null && next !in s && prev.NextOf? && prev.node !in s)
  }

  /** prev is the field that points at position i, and next an element outside. */
  ghost predicate NamesOutside(next: Node?, prev: Link, s: seq<Node>, i: nat)
  {
    i <= |s| && prev == FieldBefore(s, i) && next != null && next !in s
  }

  /** t begins with the first i elements of s and then n. */
  ghost predicate GoesOn(t: seq<Node>, s: seq<Node>, i: nat, n: Node?)
  {
    i < |t| && i <= |s| && t[..i] == s[..i] && t[i] == n
  }

  ghost function NamedNodes(e: Node): set<Node>
    reads e
  {
    (if e.next != null then {e.next} else {}) + (if e.prev.NextOf? then {e.prev.node} else {})
  }

  /** What memory holds after the assignments of TAILQ_REMOVE, for an element outside with these two fields. */
  ghost predicate Unlinked(first0: Node?, first: Node?, last: Link, s: seq<Node>, nx: seq<Node?>, pv: seq<Link>,
                           next: Node?, prev: Link)
    reads s
  {
    && Shape(first0, s, nx, pv) && |nx| == |s| == |pv|
    && first == (if prev.HeadFirst? then next else first0)
    && last == (if next == null then prev else FieldBefore(s, |s|))
    && (forall k {:trigger s[k].next} :: 0 <= k < |s| ==> s[k].next == if prev == NextOf(s[k]) then next else nx[k])
    && (forall k {:trigger s[k].prev} :: 0 <= k < |s| ==> s[k].prev == if next == s[k] then prev else pv[k])
  }

  /** No two positions have the same field or element. */
  lemma Places(s: seq<Node>, i: nat, j: nat)
    requires Distinct(s) && i <= |s| && j <= |s|
    ensures forall k :: 0 <= k < |s| ==> (FieldBefore(s, i) == NextOf(s[k]) <==> k == i - 1)
    ensures forall k :: 0 <= k < |s| ==> (At(s, j) == s[k] <==> k == j)
    ensures forall k :: 0 <= k <= |s| && FieldBefore(s, k) == FieldBefore(s, i) ==> k == i
    ensures forall k :: 0 <= k <= |s| && At(s, k) == At(s, j) ==> k == j
    ensures i == 0 <==> FieldBefore(s, i).HeadFirst?
    ensures j == |s| <==> At(s, j) == null
  {
  }

  /** The pointers still spell the list exactly if the removal is harmless. */
  lemma StaleIf(first0: Node?, first: Node?, last: Link, s: seq<Node>, nx: seq<Node?>, pv: seq<Link>, next: Node?,
                prev: Link)
    requires Unlinked(first0, first, last, s, nx, pv, next, prev)
    ensures Chained(first, s) && last == FieldBefore(s, |s|) <==> Harmless(next, prev, s)
  {
    if Chained(first, s) && last == FieldBefore(s, |s|) {
      SpellsMeans(first0, first, last, s, nx, pv, next, prev);
    } else if Harmless(next, prev, s) {
      ShapeFacts(first0, s, nx, pv);
      if i: nat :| NamePlaces(next, prev, s, i, i) {
        Places(s, i, i);
      }
      hide Shape, Chained;
      SamePointers(first0, first, s, nx, pv);
    }
  }

  lemma SpellsMeans(first0: Node?, first: Node?, last: Link, s: seq<Node>, nx: seq<Node?>, pv: seq<Link>,
                    next: Node?, prev: Link)
    requires Unlinked(first0, first, last, s, nx, pv, next, prev) && Chained(first, s) && last == FieldBefore(s, |s|)
    ensures Harmless(next, prev, s)
  {
    if next == null {
      assert NamePlaces(next, prev, s, |s|, |s|);
    } else if j: nat :| j < |s| && s[j] == next {
      ChainFacts(first, s, j);
      assert s[j].prev == prev;
      assert NamePlaces(next, prev, s, j, j);
    } else if prev.HeadFirst? {
      ChainFacts(first, s, 0);
    } else if i: nat :| i < |s| && s[i] == prev.node {
      ChainFacts(first, s, i);
      assert s[i].next == next;
    }
  }

  lemma NamesX(e: Node, x: Node, s: seq<Node>)
    requires |s| > 0 && e.next == x && x !in s && e.prev == NextOf(s[0])
    ensures NamesOutside(e.next, e.prev, s, 1)
  {
  }

  lemma OutsideIsHarmful(next: Node?, prev: Link, s: seq<Node>, i: nat)
    requires Distinct(s) && NamesOutside(next, prev, s, i)
    ensures !Harmless(next, prev, s)
  {
    if k: nat :| NamePlaces(next, prev, s, k, k) {
      Places(s, k, k);
    }
  }

  lemma StaleCut(first0: Node?, first: Node?, last: Link, s: seq<Node>, nx: seq<Node?>, pv: seq<Link>, next: Node?,
                 prev: Link,
                 i: nat, j: nat)
    requires Unlinked(first0, first, last, s, nx, pv, next, prev) && i <= j && NamePlaces(next, prev, s, i, j)
    ensures j <= |s| && Chained(first, Cut(s, i, j)) && last == FieldBefore(Cut(s, i, j), |Cut(s, i, j)|)
  {
    ShapeFacts(first0, s, nx, pv);
    Places(s, i, j);
    hide Shape, Chained, Cut;
    CutHere(first0, first, s, nx, pv, i, j);
  }

  lemma StaleCircle(first0: Node?, first: Node?, last: Link, s: seq<Node>, nx: seq<Node?>, pv: seq<Link>, next: Node?,
                    prev: Link,
                    i: nat, j: nat)
    requires Unlinked(first0, first, last, s, nx, pv, next, prev) && j < i && NamePlaces(next, prev, s, i, j)
    ensures forall t: seq<Node> :: !Chained(first, t)
  {
    ShapeFacts(first0, s, nx, pv);
    Places(s, i, j);
    hide Shape, Chained;
    Circle(first0, first, s, nx, pv, i, j);
  }

  /** The list goes on with a node from outside after i elements. */
  lemma GoesAstray(first0: Node?, first: Node?, last: Link, s: seq<Node>, nx: seq<Node?>, pv: seq<Link>, next: Node?,
                   prev: Link,
                   i: nat, t: seq<Node>)
    requires Unlinked(first0, first, last, s, nx, pv, next, prev) && NamesOutside(next, prev, s, i) && Chained(first, t)
    ensures GoesOn(t, s, i, next)
  {
    ShapeFacts(first0, s, nx, pv);
    Places(s, i, 0);
    hide Shape, Chained, Distinct;
    if i > 0 {
      SameStart(first, s, t, i, i - 1);
      ChainFacts(first, t, i);
    } else {
      ChainFacts(first, t, 0);
    }
  }

  /** The pointers forwards are as before, one of those backwards names a node from outside. */
  lemma BrokenBackwards(first0: Node?, first: Node?, last: Link, s: seq<Node>, nx: seq<Node?>, pv: seq<Link>,
                        next: Node?, prev: Link)
    requires Unlinked(first0, first, last, s, nx, pv, next, prev)
    requires prev.NextOf? && prev.node !in s && (next == null || next in s)
    ensures forall t: seq<Node> :: !(Chained(first, t) && last == FieldBefore(t, |t|))
  {
    ShapeFacts(first0, s, nx, pv);
    hide Shape, Chained, Distinct;
    forall t: seq<Node> ensures !(Chained(first, t) && last == FieldBefore(t, |t|)) {
      if Chained(first, t) && last == FieldBefore(t, |t|) {
        SameChain(first, s, t);
        if next != null {
          var j: nat :| j < |s| && s[j] == next;
          ChainFacts(first, t, j);
        }
        assert false;
      }
    }
  }

  lemma StaleEffects(first0: Node?, first: Node?, last: Link, s: seq<Node>, nx: seq<Node?>, pv: seq<Link>,
                     next: Node?, prev: Link)
    requires Unlinked(first0, first, last, s, nx, pv, next, prev)
    ensures Chained(first, s) && last == FieldBefore(s, |s|) <==> Harmless(next, prev, s)
    ensures forall i: nat, j: nat :: i <= j && NamePlaces(next, prev, s, i, j) ==>
              j <= |s| && Chained(first, Cut(s, i, j)) && last == FieldBefore(Cut(s, i, j), |Cut(s, i, j)|)
    ensures forall i: nat, j: nat, t: seq<Node> :: j < i && NamePlaces(next, prev, s, i, j) ==> !Chained(first, t)
    ensures forall i: nat, t: seq<Node> :: NamesOutside(next, prev, s, i) && Chained(first, t) ==> GoesOn(t, s, i, next)
    ensures prev.NextOf? && prev.node !in s && (next == null || next in s) ==>
              forall t: seq<Node> :: !(Chained(first, t) && last == FieldBefore(t, |t|))
  {
    StaleIf(first0, first, last, s, nx, pv, next, prev);
    hide Unlinked, Shape, Chained, Cut, At, FieldBefore, Distinct, NamePlaces, Harmless, NamesOutside, GoesOn;
    forall i: nat, j: nat | i <= j && NamePlaces(next, prev, s, i, j)
      ensures j <= |s| && Chained(first, Cut(s, i, j)) && last == FieldBefore(Cut(s, i, j), |Cut(s, i, j)|) {
      StaleCut(first0, first, last, s, nx, pv, next, prev, i, j);
    }
    forall i: nat, j: nat, t: seq<Node> | j < i && NamePlaces(next, prev, s, i, j) ensures !Chained(first, t) {
      StaleCircle(first0, first, last, s, nx, pv, next, prev, i, j);
    }
    forall i: nat, t: seq<Node> | NamesOutside(next, prev, s, i) && Chained(first, t) ensures GoesOn(t, s, i, next) {
      GoesAstray(first0, first, last, s, nx, pv, next, prev, i, t);
    }
    if prev.NextOf? && prev.node !in s && (next == null || next in s) {
      BrokenBackwards(first0, first, last, s, nx, pv, next, prev);
    }
  }

  lemma SameChain(first: Node?, s: seq<Node>, t: seq<Node>)
    requires Chained(first, t) && first == At(s, 0)
    requires forall k {:trigger s[k].next} :: 0 <= k < |s| ==> s[k].next == At(s, k + 1)
    ensures t == s
  {
    if s == [] {
      ChainFacts(first, t, 0);
    } else {
      hide Chained;
      SameStart(first, s, t, |s|, |s| - 1);
      ChainFacts(first, t, |s|);
    }
  }

  /** TAILQ_HEAD, with its elements in order as ghost state. */
  class TailQueue {
    var first: Node?
    var last: Link
    ghost var elems: seq<Node>

    ghost predicate Valid()
      reads this, elems
    {
      Chained(first, elems) && last == FieldBefore(elems, |elems|)
    }

    /** TAILQ_INIT */
    constructor ()
      ensures Valid() && elems == []
    {
      first, last := null, HeadFirst;
      elems := [];
    }

    /** *link = v, where link is the field that points at position i */
    method Store(link: Link, v: Node?, ghost i: nat)
      requires Distinct(elems) && i <= |elems| && link == FieldBefore(elems, i)
      modifies if link.HeadFirst? then {this} else {link.node}
      ensures elems == old(elems) && last == old(last) && first == if i == 0 then v else old(first)
      ensures forall k {:trigger elems[k].next} :: 0 <= k < |elems| ==>
                elems[k].next == if k == i - 1 then v else old(elems[k].next)
      ensures forall k {:trigger elems[k].prev} :: 0 <= k < |elems| ==> elems[k].prev == old(elems[k].prev)
    {
      match link
      case HeadFirst => first := v;
      case NextOf(n) => n.next := v;
    }

    /** TAILQ_INSERT_HEAD */
    method InsertHead(e: Node)
      requires Valid() && e !in elems
      modifies this, e, elems
      ensures Valid() && elems == Inserted(old(elems), 0, e)
    {
      hide Inserted, Deleted, Shape, Chained;
      ghost var nx, pv := Nexts(elems), Prevs(elems);
      ChainFacts(first, elems, 0);
      e.next := first;
      if e.next != null {
        first.prev := NextOf(e);
      } else {
        last := NextOf(e);
      }
      first := e;
      e.prev := HeadFirst;
      elems := Inserted(elems, 0, e);
      InsertedHere(old(first), first, old(elems), nx, pv, 0, e);
    }

    /** TAILQ_INSERT_TAIL */
    method InsertTail(e: Node)
      requires Valid() && e !in elems
      modifies this, e, elems
      ensures Valid() && elems == Inserted(old(elems), |old(elems)|, e)
    {
      hide Inserted, Deleted, Shape, Chained;
      ghost var nx, pv := Nexts(elems), Prevs(elems);
      ChainFacts(first, elems, |elems|);
      e.next := null;
      e.prev := last;
      Store(last, e, |elems|);
      last := NextOf(e);
      elems := Inserted(elems, |elems|, e);
      InsertedHere(old(first), first, old(elems), nx, pv, |old(elems)|, e);
    }

    /** TAILQ_INSERT_AFTER */
    method InsertAfter(listelm: Node, e: Node, ghost i: nat)
      requires Valid() && i < |elems| && elems[i] == listelm && e !in elems
      modifies this, e, elems
      ensures Valid() && elems == Inserted(old(elems), i + 1, e)
    {
      hide Inserted, Deleted, Shape, Chained;
      ghost var nx, pv := Nexts(elems), Prevs(elems);
      ChainFacts(first, elems, i + 1);
      e.next := listelm.next;
      if e.next != null {
        e.next.prev := NextOf(e);
      } else {
        last := NextOf(e);
      }
      listelm.next := e;
      e.prev := NextOf(listelm);
      elems := Inserted(elems, i + 1, e);
      InsertedHere(old(first), first, old(elems), nx, pv, i + 1, e);
    }

    /** TAILQ_INSERT_BEFORE */
    method InsertBefore(listelm: Node, e: Node, ghost i: nat)
      requires Valid() && i < |elems| && elems[i] == listelm && e !in elems
      modifies this, e, elems
      ensures Valid() && elems == Inserted(old(elems), i, e)
    {
      hide Inserted, Deleted, Shape, Chained;
      ghost var nx, pv := Nexts(elems), Prevs(elems);
      ChainFacts(first, elems, i);
      e.prev := listelm.prev;
      e.next := listelm;
      Store(listelm.prev, e, i);
      listelm.prev := NextOf(e);
      elems := Inserted(elems, i, e);
      InsertedHere(old(first), first, old(elems), nx, pv, i, e);
    }

    /** The assignments of TAILQ_REMOVE, for an element that names the fields at positions i and j. */
    method Unlink(e: Node, ghost i: nat, ghost j: nat)
      requires Distinct(elems) && i <= |elems| && j <= |elems|
      requires e.next == At(elems, j) && e.prev == FieldBefore(elems, i)
      modifies this, elems
      ensures elems == old(elems) && first == if i == 0 then At(elems, j) else old(first)
      ensures last == if j == |elems| then FieldBefore(elems, i) else old(last)
      ensures forall k {:trigger elems[k].next} :: 0 <= k < |elems| ==>
                elems[k].next == if k == i - 1 then At(elems, j) else old(elems[k].next)
      ensures forall k {:trigger elems[k].prev} :: 0 <= k < |elems| ==>
                elems[k].prev == if k == j then FieldBefore(elems, i) else old(elems[k].prev)
    {
      if e.next != null {
        e.next.prev := e.prev;
      } else {
        last := e.prev;
      }
      Store(e.prev, e.next, i);
    }

    /** TAILQ_REMOVE. Removing an element that has just left, with no change to the list since, changes
        nothing: sys_ipc_recv removes curenv and then schedule(1) removes it again. */
    method Remove(e: Node, ghost i: nat)
      requires Valid()
      requires (i < |elems| && elems[i] == e) || LeftFrom(e, elems, i)
      modifies this, elems
      ensures Valid()
      ensures i < |old(elems)| && e == old(elems)[i] ==> elems == Deleted(old(elems), i)
      ensures e !in old(elems) ==> elems == old(elems) && first == old(first) && last == old(last)
      ensures LeftFrom(e, elems, i)
    {
      hide Inserted, Deleted, Shape, Chained, At, FieldBefore, Distinct;
      ghost var nx, pv := Nexts(elems), Prevs(elems);
      ChainFacts(first, elems, i);
      ghost var here := i < |elems| && elems[i] == e;
      Unlink(e, i, if here then i + 1 else i);
      if here {
        elems := Deleted(elems, i);
        RemovedHere(old(first), first, old(elems), nx, pv, i);
      } else {
        SamePointers(old(first), first, elems, nx, pv);
      }
    }

    /** The pointers spell the sequence s. */
    ghost predicate Spells(s: seq<Node>)
      reads this, s
    {
      Chained(first, s) && last == FieldBefore(s, |s|)
    }

    /** The assignments of TAILQ_REMOVE, whatever e names. */
    method UnlinkAny(e: Node)
      requires Valid() && e !in elems
      modifies this, elems, NamedNodes(e)
      ensures elems == old(elems)
      ensures Unlinked(old(first), first, last, elems, old(Nexts(elems)), old(Prevs(elems)), old(e.next), old(e.prev))
    {
      hide At, FieldBefore, Distinct;
      ChainFacts(first, elems, 0);
      if e.next != null {
        e.next.prev := e.prev;
      } else {
        last := e.prev;
      }
      match e.prev
      case HeadFirst => first := e.next;
      case NextOf(n) => n.next := e.next;
    }

    /** TAILQ_REMOVE of an element that is not in the list: StaleEffects says what the pointers spell then. The ghost
        state stays that of before. They still spell the list exactly if the element names one place of it, or
        two elements neither of which is in it. If it names two places, what lies between them is cut out. */
    method RemoveStale(e: Node)
      requires Valid() && e !in elems
      modifies this, elems, NamedNodes(e)
      ensures elems == old(elems)
      ensures Unlinked(old(first), first, last, elems, old(Nexts(elems)), old(Prevs(elems)), old(e.next), old(e.prev))
      ensures Spells(elems) <==> Harmless(old(e.next), old(e.prev), elems)
      ensures forall i: nat, j: nat :: i <= j && NamePlaces(old(e.next), old(e.prev), elems, i, j) ==>
                j <= |elems| && Spells(Cut(elems, i, j))
    {
      ghost var first0, s, next, prev, nx, pv := first, elems, e.next, e.prev, Nexts(elems), Prevs(elems);
      UnlinkAny(e);
      hide Unlinked, Shape, Chained, Cut, At, FieldBefore, Distinct, NamedNodes, NamePlaces, Harmless;
      StaleEffects(first0, first, last, s, nx, pv, next, prev);
    }

    /** For example, x is inserted after e has left: removing e again takes out x. */
    method RemoveAroundInsert(e: Node, x: Node)
      requires Valid() && elems == [e] && x != e
      modifies this, e, x
      ensures Valid() && elems == []
    {
      Remove(e, 0);
      InsertTail(x);
      assert NamePlaces(e.next, e.prev, elems, 0, 1);
      RemoveStale(e);
      elems := Cut(elems, 0, 1);
    }

    /** The element that e names as its successor is not in the list any more. */
    method RemoveBehindRemoved(e: Node, ghost i: nat)
      requires Valid() && e !in elems && NamesOutside(e.next, e.prev, elems, i)
      modifies this, elems, NamedNodes(e)
      ensures elems == old(elems) && !Valid()
      ensures forall t: seq<Node> :: Chained(first, t) ==> GoesOn(t, elems, i, old(e.next))
    {
      ghost var s, first0, next, prev, nx, pv := elems, first, e.next, e.prev, Nexts(elems), Prevs(elems);
      OutsideIsHarmful(next, prev, s, i);
      hide Chained, Cut, GoesOn, At, FieldBefore, NamedNodes, NamesOutside, Harmless, NamePlaces, Unlinked, Distinct;
      RemoveStale(e);
      StaleEffects(first0, first, last, s, nx, pv, next, prev);
    }

    /** For example, the element behind e leaves as well: removing e again makes the list go on with that one. */
    method RemoveAroundRemove(e: Node, x: Node)
      requires Valid() && |elems| == 4 && elems[1] == e && elems[2] == x
      modifies this, elems
      ensures elems == [old(elems)[0], old(elems)[3]] && !Valid()
      ensures forall t: seq<Node> :: Chained(first, t) ==> GoesOn(t, elems, 1, x)
    {
      hide Chained, Cut, GoesOn, NamesOutside;
      ghost var a, b := elems[0], elems[3];
      Remove(e, 1);
      assert elems == [a, x, b] && e.next == x && e.prev == NextOf(a);
      hide Deleted;
      Remove(x, 1);
      assert elems == [a, b] && x !in elems;
      assert NamedNodes(e) == {x, a} && NamesOutside(e.next, e.prev, elems, 1) by { NamesX(e, x, elems); }
      RemoveBehindRemoved(e, 1);
    }
  }

  /** LIST_HEAD, with its elements in order as ghost state. */
  class List {
    var first: Node?
    ghost var elems: seq<Node>

    ghost predicate Valid()
      reads this, elems
    {
      Chained(first, elems)
    }

    /** LIST_INIT */
    constructor ()
      ensures Valid() && elems == []
    {
      first := null;
      elems := [];
    }

    /** *link = v, where link is the field that points at position i */
    method Store(link: Link, v: Node?, ghost i: nat)
      requires Distinct(elems) && i <= |elems| && link == FieldBefore(elems, i)
      modifies if link.HeadFirst? then {this} else {link.node}
      ensures elems == old(elems) && first == if i == 0 then v else old(first)
      ensures forall k {:trigger elems[k].next} :: 0 <= k < |elems| ==>
                elems[k].next == if k == i - 1 then v else old(elems[k].next)
      ensures forall k {:trigger elems[k].prev} :: 0 <= k < |elems| ==> elems[k].prev == old(elems[k].prev)
    {
      match link
      case HeadFirst => first := v;
      case NextOf(n) => n.next := v;
    }

    /** LIST_INSERT_HEAD */
    method InsertHead(e: Node)
      requires Valid() && e !in elems
      modifies this, e, elems
      ensures Valid() && elems == Inserted(old(elems), 0, e)
    {
      hide Inserted, Deleted, Shape, Chained;
      ghost var nx, pv := Nexts(elems), Prevs(elems);
      ChainFacts(first, elems, 0);
      e.next := first;
      if e.next != null {
        first.prev := NextOf(e);
      }
      first := e;
      e.prev := HeadFirst;
      elems := Inserted(elems, 0, e);
      InsertedHere(old(first), first, old(elems), nx, pv, 0, e);
    }

    /** LIST_INSERT_AFTER */
    method InsertAfter(listelm: Node, e: Node, ghost i: nat)
      requires Valid() && i < |elems| && elems[i] == listelm && e !in elems
      modifies this, e, elems
      ensures Valid() && elems == Inserted(old(elems), i + 1, e)
    {
      hide Inserted, Deleted, Shape, Chained;
      ghost var nx, pv := Nexts(elems), Prevs(elems);
      ChainFacts(first, elems, i + 1);
      e.prev := NextOf(listelm);
      e.next := listelm.next;
      if listelm.next != null {
        listelm.next.prev := NextOf(e);
      }
      listelm.next := e;
      elems := Inserted(elems, i + 1, e);
      InsertedHere(old(first), first, old(elems), nx, pv, i + 1, e);
    }

    /** LIST_INSERT_BEFORE */
    method InsertBefore(listelm: Node, e: Node, ghost i: nat)
      requires Valid() && i < |elems| && elems[i] == listelm && e !in elems
      modifies this, e, elems
      ensures Valid() && elems == Inserted(old(elems), i, e)
    {
      hide Inserted, Deleted, Shape, Chained;
      ghost var nx, pv := Nexts(elems), Prevs(elems);
      ChainFacts(first, elems, i);
      e.prev := listelm.prev;
      e.next := listelm;
      Store(listelm.prev, e, i);
      listelm.prev := NextOf(e);
      elems := Inserted(elems, i, e);
      InsertedHere(old(first), first, old(elems), nx, pv, i, e);
    }

    /** The assignments of LIST_REMOVE, for an element that names the fields around positions i to j. */
    method Unlink(e: Node, ghost i: nat, ghost j: nat)
      requires Distinct(elems) && i <= j <= |elems|
      requires e.next == At(elems, j) && e.prev == FieldBefore(elems, i)
      modifies this, elems
      ensures elems == old(elems) && first == if i == 0 then At(elems, j) else old(first)
      ensures forall k {:trigger elems[k].next} :: 0 <= k < |elems| ==>
                elems[k].next == if k == i - 1 then At(elems, j) else old(elems[k].next)
      ensures forall k {:trigger elems[k].prev} :: 0 <= k < |elems| ==>
                elems[k].prev == if k == j then FieldBefore(elems, i) else old(elems[k].prev)
    {
      if e.next != null {
        e.next.prev := e.prev;
      }
      Store(e.prev, e.next, i);
    }

    /** LIST_REMOVE */
    method Remove(e: Node, ghost i: nat)
      requires Valid()
      requires (i < |elems| && elems[i] == e) || LeftFrom(e, elems, i)
      modifies this, elems
      ensures Valid()
      ensures i < |old(elems)| && e == old(elems)[i] ==> elems == Deleted(old(elems), i)
      ensures e !in old(elems) ==> elems == old(elems) && first == old(first)
      ensures LeftFrom(e, elems, i)
    {
      hide Inserted, Deleted, Shape, Chained, At, FieldBefore, Distinct;
      ghost var nx, pv := Nexts(elems), Prevs(elems);
      ChainFacts(first, elems, i);
      ghost var here := i < |elems| && elems[i] == e;
      Unlink(e, i, if here then i + 1 else i);
      if here {
        elems := Deleted(elems, i);
        RemovedHere(old(first), first, old(elems), nx, pv, i);
      } else {
        SamePointers(old(first), first, elems, nx, pv);
      }
    }
  }
}
