/**
The two singly linked lists of wl_linux.c: timers, prepended by wl_init_timer and unlinked by
wl_free_timer, and interfaces, appended by wl_alloc_if and unlinked by wl_free_if.
*/
module Lists {
  import opened Common

  class Node {
    var next: Node?

    constructor ()
      ensures next == null
    { next := null; }
  }

  ghost predicate Distinct<T>(s: seq<T>) { forall i, j :: 0 <= i < j < |s| ==> s[i] != s[j] }

  /** The sequence without any element equal to x. */
  ghost function Without<T>(s: seq<T>, x: T): seq<T> {
    if |s| == 0 then [] else if s[0] == x then Without(s[1..], x) else [s[0]] + Without(s[1..], x)
  }

  lemma {:induction false} WithoutAbsent<T>(s: seq<T>, x: T)
    requires x !in s
    ensures Without(s, x) == s
  {
    if |s| > 0 {
      assert x !in s[1..];
      WithoutAbsent(s[1..], x);
    }
  }

  /** Taking out of a list of distinct elements cuts exactly one position. */
  lemma {:induction false} WithoutCuts<T>(s: seq<T>, i: nat)
    requires i < |s| && Distinct(s)
    ensures Without(s, s[i]) == s[..i] + s[i + 1..]
  {
    if i == 0 {
      assert s[0] !in s[1..];
      WithoutAbsent(s[1..], s[0]);
    } else {
      WithoutCuts(s[1..], i - 1);
      assert s[..i] + s[i + 1..] == [s[0]] + (s[1..][..i - 1] + s[1..][i..]);
    }
  }

  /** Freeing a timer undoes its creation, wherever other timers went in between. */
  lemma {:induction false} FreeUndoesInit<T>(before: seq<T>, later: seq<T>, t: T)
    requires Distinct(later + [t] + before)
    ensures Without(later + [t] + before, t) == later + before
  {
    WithoutCuts(later + [t] + before, |later|);
  }

  /** Positions i of s and j of r hold the same element, for elements other than x, in the same order. */
  lemma {:induction false} WithoutKeepsOrder<T>(s: seq<T>, x: T, i: nat, j: nat)
    requires i < j < |s| && s[i] != x && s[j] != x && Distinct(s)
    ensures exists k: nat, l: nat :: k < l < |Without(s, x)| && Without(s, x)[k] == s[i] && Without(s, x)[l] == s[j]
  {
    if x in s {
      var c :| 0 <= c < |s| && s[c] == x;
      WithoutCuts(s, c);
      var k, l := if i < c then i else i - 1, if j < c then j else j - 1;
      assert k < l < |Without(s, x)| && Without(s, x)[k] == s[i] && Without(s, x)[l] == s[j];
    } else {
      WithoutAbsent(s, x);
    }
  }

  class List {
    var head: Node?
    ghost var nodes: seq<Node>

    /** Acyclic: every node once, each pointing to the next, the last to null. */
    ghost predicate Valid()
      reads this, nodes
    {
      && head == (if |nodes| == 0 then null else nodes[0])
      && Distinct(nodes)
      && (forall i :: 0 <= i < |nodes| ==> nodes[i].next == After(nodes, i))
    }

    constructor ()
      ensures Valid() && nodes == []
    {
      head, nodes := null, [];
    }

    /** wl_init_timer: prepend. */
    method Prepend(t: Node)
      requires Valid() && t !in nodes
      modifies this, t
      ensures Valid() && nodes == [t] + old(nodes)
    {
      t.next := head;
      head := t;
      nodes := [t] + nodes;
      assert forall i :: 1 <= i < |nodes| ==> After(nodes, i) == After(old(nodes), i - 1);
    }

    /** wl_alloc_if: append. A fresh interface is all zeroes. */
    method Append(wlif: Node)
      requires Valid() && wlif !in nodes && wlif.next == null
      modifies this, nodes
      ensures Valid() && nodes == old(nodes) + [wlif]
    {
      if head == null {
        head := wlif;
      } else {
        var p := head;
        ghost var i := 0;
        while p.next != null
          invariant Valid() && nodes == old(nodes) && i < |nodes| && p == nodes[i]
          decreases |nodes| - i
        {
          assert nodes[i].next == After(nodes, i);
          p := p.next;
          i := i + 1;
        }
        assert nodes[i].next == After(nodes, i);
        p.next := wlif;
      }
      ghost var all := nodes + [wlif];
      assert forall i :: 0 <= i < |nodes| - 1 ==> After(all, i) == After(nodes, i);
      nodes := all;
    }

    /** Relinks node i - 1 around node i. */
    ghost method Cut(i: nat)
      requires i < |nodes| && Distinct(nodes)
      requires head == (if i == 0 then After(nodes, 0) else nodes[0])
      requires forall k :: 0 <= k < |nodes| ==> nodes[k].next == if k + 1 == i then After(nodes, i) else After(nodes, k)
      modifies this`nodes
      ensures Valid() && nodes == Without(old(nodes), old(nodes[i]))
    {
      WithoutCuts(nodes, i);
      ghost var rest := nodes[..i] + nodes[i + 1..];
      forall k | 0 <= k < |rest| ensures rest[k].next == After(rest, k) {
        assert rest[k] == if k < i then nodes[k] else nodes[k + 1];
      }
      nodes := rest;
    }

    /** wl_free_timer after wl_del_timer. A timer that is not in the list is neither unlinked nor freed. */
    method FreeTimer(t: Node) returns (freed: bool)
      requires Valid()
      modifies this, nodes
      ensures Valid() && nodes == Without(old(nodes), t) && freed == (t in old(nodes))
    {
      if head == t {
        assert nodes[0].next == After(nodes, 0);
        head := head.next;
        Cut(0);
        return true;
      }
      var tmp := head;
      ghost var i := 0;
      while tmp != null
        invariant Valid() && nodes == old(nodes) && i <= |nodes|
        invariant tmp == if i < |nodes| then nodes[i] else null
        invariant t !in nodes[..i] && (i < |nodes| ==> nodes[i] != t)
        decreases |nodes| - i
      {
        assert nodes[i].next == After(nodes, i);
        if tmp.next == t {
          assert t == nodes[i + 1] && t.next == After(nodes, i + 1);
          tmp.next := t.next;
          Cut(i + 1);
          return true;
        }
        tmp := tmp.next;
        assert nodes[..i + 1] == nodes[..i] + [nodes[i]];
        i := i + 1;
      }
      assert nodes[..i] == nodes;
      WithoutAbsent(nodes, t);
      freed := false;
    }

    /** The list half of wl_free_if. */
    method FreeIf(wlif: Node)
      requires Valid()
      modifies this, nodes
      ensures Valid() && nodes == Without(old(nodes), wlif)
    {
      var p := head;
      if p == wlif {
        assert nodes[0].next == After(nodes, 0);
        head := p.next;
        Cut(0);
      } else {
        ghost var i := 0;
        while p != null && p.next != wlif
          invariant Valid() && nodes == old(nodes) && i <= |nodes|
          invariant p == if i < |nodes| then nodes[i] else null
          invariant wlif !in nodes[..i] && (i < |nodes| ==> nodes[i] != wlif)
          decreases |nodes| - i
        {
          assert nodes[i].next == After(nodes, i);
          p := p.next;
          assert nodes[..i + 1] == nodes[..i] + [nodes[i]];
          i := i + 1;
        }
        if p != null {
          assert p == nodes[i] && nodes[i].next == After(nodes, i);
          assert nodes[i + 1].next == After(nodes, i + 1);
          p.next := p.next.next;
          Cut(i + 1);
        } else {
          assert nodes[..i] == nodes;
          WithoutAbsent(nodes, wlif);
        }
      }
    }
  }
}
