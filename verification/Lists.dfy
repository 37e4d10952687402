/** lib/list.c: doubly linked lists between two sentinels, whose links are fields of the elements. */
module Lists {

  /** `struct list_elem`. The record that it is a field of, which elem2entry finds, is given by a number. */
  class Elem {
    const entry: nat
    var prev: Elem?
    var next: Elem?

    constructor (entry: nat)
      ensures this.entry == entry && prev == null && next == null
    {
      this.entry, prev, next := entry, null, null;
    }
  }

  /** elem2entry, for each element of a list */
  ghost function Entries(es: seq<Elem>): (ns: seq<nat>)
    ensures |ns| == |es| && forall i :: 0 <= i < |es| ==> ns[i] == es[i].entry
  {
    seq(|es|, i requires 0 <= i < |es| => es[i].entry)
  }

  /** Each element's links are its neighbours, and no element occurs twice. */
  ghost predicate Linked(c: seq<Elem>)
    reads c
  {
    && (forall i, j :: 0 <= i < j < |c| ==> c[i] != c[j])
    && forall i :: 0 <= i < |c| - 1 ==> c[i].next == c[i + 1] && c[i + 1].prev == c[i]
  }

  /** `struct list`. The ghost field holds the elements between the sentinels. */
  class List {
    const head: Elem
    const tail: Elem
    ghost var elems: seq<Elem>

    ghost function Chain(): seq<Elem>
      reads this
    {
      [head] + elems + [tail]
    }

    ghost predicate Valid()
      reads this, Chain()
    {
      Linked(Chain())
    }

    /** list_init */
    constructor ()
      ensures Valid() && elems == [] && fresh(head) && fresh(tail)
    {
      var h := new Elem(0);
      var t := new Elem(0);
      h.next := t;
      t.prev := h;
      head, tail, elems := h, t, [];
    }

    /** list_insert_before, where `before` is the element at position i or, for i == |elems|, the tail */
    method InsertBefore(before: Elem, elem: Elem, ghost i: nat)
      requires Valid() && i <= |elems| && before == Chain()[i + 1] && elem !in Chain()
      modifies this`elems, elem, Chain()
      ensures Valid() && elems == old(elems[..i] + [elem] + elems[i..])
    {
      ghost var c := Chain();
      elem.next := before;
      elem.prev := before.prev;
      assert before.prev == c[i];
      before.prev.next := elem;
      before.prev := elem;
      elems := elems[..i] + [elem] + elems[i..];
      assert Chain() == c[..i + 1] + [elem] + c[i + 1..];
      InsertLinked(c, Chain(), i, elem);
    }

    /** list_push */
    method Push(elem: Elem)
      requires Valid() && elem !in Chain()
      modifies this`elems, elem, Chain()
      ensures Valid() && elems == [elem] + old(elems)
    {
      assert Chain()[0] == head && head.next == Chain()[1];
      InsertBefore(head.next, elem, 0);
    }

    /** list_append */
    method Append(elem: Elem)
      requires Valid() && elem !in Chain()
      modifies this`elems, elem, Chain()
      ensures Valid() && elems == old(elems) + [elem]
    {
      assert Chain()[|elems| + 1] == tail;
      InsertBefore(tail, elem, |elems|);
    }

    /** list_remove. The element keeps its links, and may be put on a list again. */
    method Remove(elem: Elem, ghost i: nat)
      requires Valid() && i < |elems| && elem == elems[i]
      modifies this`elems, Chain()
      ensures Valid() && elems == old(elems[..i] + elems[i + 1..]) && elem !in Chain()
    {
      ghost var c := Chain();
      assert elem == c[i + 1] && elem.prev == c[i] && elem.next == c[i + 2];
      elem.next.prev := elem.prev;
      elem.prev.next := elem.next;
      elems := elems[..i] + elems[i + 1..];
      assert Chain() == c[..i + 1] + c[i + 2..];
      RemoveLinked(c, Chain(), i);
    }

    /** list_pop. On an empty list the source would unlink the tail; its callers look first. */
    method Pop() returns (elem: Elem)
      requires Valid() && |elems| > 0
      modifies this`elems, Chain()
      ensures Valid() && elem == old(elems[0]) && elems == old(elems[1..]) && elem !in Chain()
    {
      assert Chain()[0] == head && Chain()[1] == elems[0];
      elem := head.next;
      Remove(elem, 0);
    }

    /** list_empty */
    method Empty() returns (b: bool)
      requires Valid()
      ensures b <==> elems == []
    {
      assert Chain()[0] == head && head.next == Chain()[1];
      assert |elems| > 0 ==> Chain()[1] != Chain()[|elems| + 1];
      b := head.next == tail;
    }

    /** list_len */
    method Len() returns (len: nat)
      requires Valid()
      ensures len == |elems|
    {
      len := 0;
      var elem := head.next;
      assert Chain()[0] == head;
      while elem != tail
        invariant len <= |elems| && elem == Chain()[len + 1]
        decreases |elems| - len
      {
        len := len + 1;
        elem := elem.next;
      }
      assert Chain()[|elems| + 1] == tail;
    }

    /** elem_find */
    method Find(obj: Elem) returns (found: bool)
      requires Valid()
      ensures found <==> obj in elems
    {
      ghost var i := 0;
      var elem := head.next;
      assert Chain()[0] == head;
      while elem != tail
        invariant 0 <= i <= |elems| && elem == Chain()[i + 1] && obj !in elems[..i]
        decreases |elems| - i
      {
        if elem == obj {
          return true;
        }
        i := i + 1;
        elem := elem.next;
      }
      assert Chain()[|elems| + 1] == tail;
      return false;
    }
  }

  // --- Several lists whose elements are drawn from the same records ---

  /** The elements of all lists of a family, sentinels included */
  ghost function Members<K>(ls: map<K, List>): set<Elem>
    reads ls.Values
  {
    set k, e | k in ls && e in ls[k].Chain() :: e
  }

  ghost predicate LinkedAmong(c: seq<Elem>, members: set<Elem>)
    reads members
  {
    (forall e :: e in c ==> e in members) && Linked(c)
  }

  /** Each list of the family is in order, and no element, sentinels included, is on two of them. */
  ghost predicate Apart<K>(ls: map<K, List>)
    reads ls.Values, Members(ls)
  {
    && (forall k :: k in ls ==> LinkedAmong(ls[k].Chain(), Members(ls)))
    && (forall j, k :: j in ls && k in ls && j != k ==> ls[j] != ls[k])
    && forall j, k, e :: j in ls && k in ls && j != k && e in ls[j].Chain() ==> e !in ls[k].Chain()
  }

  lemma ChainLinks(l: List, i: nat)
    requires l.Valid() && i <= |l.elems|
    ensures l.Chain()[i].next == l.Chain()[i + 1] && l.Chain()[i + 1].prev == l.Chain()[i]
  {
  }

  lemma OneList<K>(k: K, l: List)
    requires l.Valid()
    ensures Apart(map[k := l])
  {
    hide Linked;
    var m := map[k := l];
    forall e | e in l.Chain()
      ensures e in Members(m)
    {
      assert k in m && e in m[k].Chain();
    }
  }

  /** A list whose elements are on none of the others joins the family. */
  lemma OneMore<K>(ls: map<K, List>, k: K, l: List)
    requires Apart(ls) && l.Valid() && (forall j :: j in ls ==> ls[j] != l) && forall e :: e in l.Chain() ==> e !in Members(ls)
    ensures Apart(ls[k := l])
  {
    hide Linked;
    var m := ls[k := l];
    forall j | j in m
      ensures LinkedAmong(m[j].Chain(), Members(m))
    {
      assert j != k ==> LinkedAmong(ls[j].Chain(), Members(ls));
    }
  }

  lemma EntryIn(es: seq<Elem>, e: Elem)
    ensures e in es ==> e.entry in Entries(es)
  {
    if i :| 0 <= i < |es| && es[i] == e {
      assert Entries(es)[i] == e.entry;
    }
  }

  lemma EntriesAround(es: seq<Elem>, e: Elem)
    ensures Entries(es + [e]) == Entries(es) + [e.entry]
    ensures Entries([e] + es) == [e.entry] + Entries(es)
  {
  }

  twostate lemma LinkedStill(c: seq<Elem>)
    requires old(Linked(c)) && forall e :: e in c ==> e.next == old(e.next) && e.prev == old(e.prev)
    ensures Linked(c)
  {
    assert forall i :: 0 <= i < |c| ==> c[i] in c;
  }

  lemma InsertLinked(c: seq<Elem>, c': seq<Elem>, i: nat, elem: Elem)
    requires i + 1 < |c| && c' == c[..i + 1] + [elem] + c[i + 1..] && elem !in c
    requires forall j, k :: 0 <= j < k < |c| ==> c[j] != c[k]
    requires forall j :: 0 <= j < |c| - 1 && j != i ==> c[j].next == c[j + 1] && c[j + 1].prev == c[j]
    requires c[i].next == elem && elem.prev == c[i] && elem.next == c[i + 1] && c[i + 1].prev == elem
    ensures Linked(c')
  {
    forall j | 0 <= j < |c'| - 1
      ensures c'[j].next == c'[j + 1] && c'[j + 1].prev == c'[j]
    {
      if j < i {
        assert c'[j] == c[j] && c'[j + 1] == c[j + 1];
      } else if j > i + 1 {
        assert c'[j] == c[j - 1] && c'[j + 1] == c[j];
      }
    }
  }

  lemma RemoveLinked(c: seq<Elem>, c': seq<Elem>, i: nat)
    requires i + 2 < |c| && c' == c[..i + 1] + c[i + 2..]
    requires forall j, k :: 0 <= j < k < |c| ==> c[j] != c[k]
    requires forall j :: 0 <= j < |c| - 1 && j != i && j != i + 1 ==> c[j].next == c[j + 1] && c[j + 1].prev == c[j]
    requires c[i].next == c[i + 2] && c[i + 2].prev == c[i]
    ensures Linked(c') && c[i + 1] !in c'
  {
    forall j | 0 <= j < |c'|
      ensures c'[j] == if j <= i then c[j] else c[j + 1]
    {
    }
    forall j | 0 <= j < |c'| - 1
      ensures c'[j].next == c'[j + 1] && c'[j + 1].prev == c'[j]
    {
      if j > i {
        assert c'[j] == c[j + 1] && c'[j + 1] == c[j + 2];
      }
    }
  }
}
