/** The circular doubly linked list whose heads lie inside the listed objects. */
module LinkedList {

  class ListHead {
    var next: ListHead?
    var prev: ListHead?

    /** A list head that is a list of its own. */
    constructor ()
      ensures next == this && prev == this && Ring([this])
    {
      next, prev := this, this;
    }
  }

  ghost predicate NoRepeats(s: seq<ListHead>) {
    s == [] || (s[0] !in s[1..] && NoRepeats(s[1..]))
  }

  /** Any two of the heads differ. */
  ghost predicate AllDiffer(s: seq<ListHead>) {
    forall i, j :: 0 <= i < j < |s| ==> s[i] != s[j]
  }

  lemma {:induction false} NoRepeatsMeans(s: seq<ListHead>)
    ensures NoRepeats(s) <==> AllDiffer(s)
  {
    if s != [] {
      var t := s[1..];
      NoRepeatsMeans(t);
      assert forall i :: 0 < i < |s| ==> s[i] == t[i - 1];
      if s[0] !in t && AllDiffer(t) {
        forall i, j | 0 <= i < j < |s| ensures s[i] != s[j] {
          assert i > 0 ==> t[i - 1] != t[j - 1];
        }
      }
      if AllDiffer(s) {
        forall i, j | 0 <= i < j < |t| ensures t[i] != t[j] {
          assert s[i + 1] != s[j + 1];
        }
      }
    }
  }

  /** The heads in `s`, the list's own head first, are linked in a circle both ways. */
  ghost predicate Ring(s: seq<ListHead>)
    reads s
  {
    && |s| > 0 && NoRepeats(s)
    && (forall i {:trigger Succ(s, i)} :: 0 <= i < |s| ==> s[i].next == s[Succ(s, i)])
    && (forall i {:trigger Pred(s, i)} :: 0 <= i < |s| ==> s[i].prev == s[Pred(s, i)])
  }

  function Succ(s: seq<ListHead>, i: nat): (j: nat)
    requires i < |s|
    ensures j < |s|
  {
    if i + 1 == |s| then 0 else i + 1
  }

  function Pred(s: seq<ListHead>, i: nat): (j: nat)
    requires i < |s|
    ensures j < |s|
  {
    if i == 0 then |s| - 1 else i - 1
  }

  function Spliced(s: seq<ListHead>, i: nat, node: ListHead): (r: seq<ListHead>)
    requires i < |s|
    ensures |r| == |s| + 1
    ensures forall k :: 0 <= k < |r| ==> r[k] == if k <= i then s[k] else if k == i + 1 then node else s[k - 1]
  {
    s[..i + 1] + [node] + s[i + 1..]
  }

  function Cut(s: seq<ListHead>, i: nat): (r: seq<ListHead>)
    requires i < |s|
    ensures |r| == |s| - 1
    ensures forall k :: 0 <= k < |r| ==> r[k] == if k < i then s[k] else s[k + 1]
  {
    s[..i] + s[i + 1..]
  }

  /** `node` has been linked in behind head `i`. */
  ghost predicate LinkedIn(s: seq<ListHead>, i: nat, node: ListHead)
    requires i < |s|
    reads s, node
  {
    && AllDiffer(s) && node !in s && node.next == s[Succ(s, i)] && node.prev == s[i]
    && (forall k {:trigger Succ(s, k)} :: 0 <= k < |s| ==> s[k].next == if k == i then node else s[Succ(s, k)])
    && (forall k {:trigger Pred(s, k)} :: 0 <= k < |s| ==> s[k].prev == if k == Succ(s, i) then node else s[Pred(s, k)])
  }

  lemma SplicedDiffers(s: seq<ListHead>, i: nat, node: ListHead)
    requires i < |s| && AllDiffer(s) && node !in s
    ensures AllDiffer(Spliced(s, i, node))
  {
    var r := Spliced(s, i, node);
    forall j, k | 0 <= j < k < |r| ensures r[j] != r[k] {
      assert r[j] == if j <= i then s[j] else if j == i + 1 then node else s[j - 1];
      assert r[k] == if k <= i then s[k] else if k == i + 1 then node else s[k - 1];
    }
  }

  lemma LinkedInAt(s: seq<ListHead>, i: nat, node: ListHead, k: nat)
    requires i < |s| && LinkedIn(s, i, node) && k <= |s|
    ensures var r := Spliced(s, i, node); r[k].next == r[Succ(r, k)] && r[k].prev == r[Pred(r, k)]
  {
    var r := Spliced(s, i, node);
    if k != i + 1 {
      var j := if k <= i then k else k - 1;
      assert Succ(s, j) < |s| && Pred(s, j) < |s|;
      assert r[k] == s[j] && s[j].next == if j == i then node else s[Succ(s, j)];
      assert s[j].prev == if j == Succ(s, i) then node else s[Pred(s, j)];
    }
  }

  lemma LinkedInRing(s: seq<ListHead>, i: nat, node: ListHead)
    requires i < |s| && LinkedIn(s, i, node)
    ensures Ring(Spliced(s, i, node))
  {
    var r := Spliced(s, i, node);
    SplicedDiffers(s, i, node);
    NoRepeatsMeans(r);
    forall k | 0 <= k < |r| ensures r[k].next == r[Succ(r, k)] && r[k].prev == r[Pred(r, k)] {
      LinkedInAt(s, i, node, k);
    }
  }

  /** Head `i` has been cut out. */
  ghost predicate CutOut(s: seq<ListHead>, i: nat)
    requires i < |s|
    reads s
  {
    && AllDiffer(s)
    && (forall k {:trigger Succ(s, k)} :: 0 <= k < |s| && k != i ==> s[k].next == if k == Pred(s, i) then s[Succ(s, i)] else s[Succ(s, k)])
    && (forall k {:trigger Pred(s, k)} :: 0 <= k < |s| && k != i ==> s[k].prev == if k == Succ(s, i) then s[Pred(s, i)] else s[Pred(s, k)])
  }

  lemma CutDiffers(s: seq<ListHead>, i: nat)
    requires i < |s| && AllDiffer(s)
    ensures AllDiffer(Cut(s, i))
  {
    var r := Cut(s, i);
    forall j, k | 0 <= j < k < |r| ensures r[j] != r[k] {
      assert r[j] == s[if j < i then j else j + 1];
      assert r[k] == s[if k < i then k else k + 1];
    }
  }

  lemma CutOutAt(s: seq<ListHead>, i: nat, k: nat)
    requires 0 < i < |s| && CutOut(s, i) && k < |s| - 1
    ensures var r := Cut(s, i); r[k].next == r[Succ(r, k)] && r[k].prev == r[Pred(r, k)]
  {
    var r := Cut(s, i);
    var j := if k < i then k else k + 1;
    assert Succ(s, j) < |s| && Pred(s, j) < |s|;
    assert r[k] == s[j] && s[j].next == if j == Pred(s, i) then s[Succ(s, i)] else s[Succ(s, j)];
    assert s[j].prev == if j == Succ(s, i) then s[Pred(s, i)] else s[Pred(s, j)];
  }

  lemma CutOutRing(s: seq<ListHead>, i: nat)
    requires 0 < i < |s| && CutOut(s, i)
    ensures Ring(Cut(s, i))
  {
    var r := Cut(s, i);
    CutDiffers(s, i);
    NoRepeatsMeans(r);
    forall k | 0 <= k < |r| ensures r[k].next == r[Succ(r, k)] && r[k].prev == r[Pred(r, k)] {
      CutOutAt(s, i, k);
    }
  }

  /** Links `node` in behind `at`. */
  method Add(node: ListHead, at: ListHead, ghost s: seq<ListHead>, ghost i: nat)
    requires Ring(s) && i < |s| && at == s[i] && node !in s
    modifies node, s
    ensures Ring(Spliced(s, i, node))
  {
    NoRepeatsMeans(s);
    var next := at.next;
    assert next == s[Succ(s, i)];
    node.next := next;
    node.prev := at;
    at.next := node;
    next.prev := node;
    LinkedInRing(s, i, node);
  }

  /** Links `node` in before `head`, the first of the circle: at the tail of the list. */
  method AddTail(node: ListHead, head: ListHead, ghost s: seq<ListHead>)
    requires Ring(s) && head == s[0] && node !in s
    modifies node, s
    ensures Ring(Spliced(s, |s| - 1, node))
  {
    NoRepeatsMeans(s);
    var prev := head.prev;
    assert prev == s[Pred(s, 0)];
    node.next := head;
    node.prev := prev;
    prev.next := node;
    head.prev := node;
    LinkedInRing(s, |s| - 1, node);
  }

  /** Unlinks `node`. */
  method Delete(node: ListHead, ghost s: seq<ListHead>, ghost i: nat)
    requires Ring(s) && 0 < i < |s| && node == s[i]
    modifies s
    ensures Ring(Cut(s, i)) && node.next == null && node.prev == null
  {
    NoRepeatsMeans(s);
    var next, prev := node.next, node.prev;
    assert next == s[Succ(s, i)] && prev == s[Pred(s, i)];
    prev.next := next;
    next.prev := prev;
    node.next := null;
    node.prev := null;
    CutOutRing(s, i);
  }
}
