/**
 The child lists of src/core/cJSON.c: items doubly linked through `next` and `prev`, with
 `next` ending in NULL and the `prev` of the first item leading to the last.
 */
module ChildList {
  class Item {
    var next: Item?
    var prev: Item?
    var child: Item?
  }

  /** The item that a possibly null pointer leads to. */
  ghost function Ref(x: Item?): set<Item> { if x == null then {} else {x} }

  ghost predicate Distinct(s: seq<Item>) {
    forall i, j :: 0 <= i < j < |s| ==> s[i] != s[j]
  }

  ghost function NextIn(s: seq<Item>, i: nat): Item?
    requires i < |s|
  {
    if i + 1 < |s| then s[i + 1] else null
  }

  ghost function PrevIn(s: seq<Item>, i: nat): Item
    requires i < |s|
  {
    if i > 0 then s[i - 1] else s[|s| - 1]
  }

  /** The children of `parent` are exactly the items of `s`, in order. */
  ghost predicate Children(parent: Item, s: seq<Item>)
    reads parent, s
  {
    && parent !in s && Distinct(s)
    && parent.child == (if s == [] then null else s[0])
    && (forall i {:trigger s[i].next} :: 0 <= i < |s| ==> s[i].next == NextIn(s, i))
    && (forall i {:trigger s[i].prev} :: 0 <= i < |s| ==> s[i].prev == PrevIn(s, i))
  }

  /** A parent has one list of children: the links determine it. */
  lemma {:induction false} ChildrenUnique(parent: Item, s: seq<Item>, t: seq<Item>)
    requires Children(parent, s) && Children(parent, t)
    ensures s == t
  {
    if |s| <= |t| { PrefixAgrees(parent, s, t, |s|); } else { PrefixAgrees(parent, t, s, |t|); }
  }

  lemma {:induction false} PrefixAgrees(parent: Item, s: seq<Item>, t: seq<Item>, n: nat)
    requires Children(parent, s) && Children(parent, t) && n <= |s| <= |t|
    ensures s[..n] == t[..n]
    ensures n == |s| ==> |s| == |t|
  {
    if n > 0 {
      PrefixAgrees(parent, s, t, n - 1);
      if n > 1 {
        assert s[n - 2] == s[..n - 1][n - 2] && t[n - 2] == t[..n - 1][n - 2];
        assert s[n - 2].next == s[n - 1] && t[n - 2].next == t[n - 1];
      }
      assert s[..n] == s[..n - 1] + [s[n - 1]] && t[..n] == t[..n - 1] + [t[n - 1]];
      assert s[n - 1].next == NextIn(s, n - 1) && t[n - 1].next == NextIn(t, n - 1);
    }
  }

  /** `get_array_item` */
  method GetArrayItem(parent: Item?, index: nat, ghost s: seq<Item>) returns (r: Item?)
    requires parent != null ==> Children(parent, s)
    ensures r == if parent != null && index < |s| then s[index] else null
  {
    if parent == null { return null; }
    r := parent.child;
    var left := index;
    ghost var i := 0;
    while r != null && left > 0
      invariant 0 <= i <= |s| && 0 <= left && left + i == index
      invariant r == if i < |s| then s[i] else null
      decreases left
    {
      left := left - 1;
      r := r.next;
      i := i + 1;
    }
  }

  /** `add_item_to_array`. When the list is not empty the code leaves `item.next` alone, so the list
      is one again exactly when the item comes unlinked, as created or detached items do. */
  method AddItemToArray(parent: Item?, item: Item?, ghost s: seq<Item>) returns (ok: bool)
    requires parent != null ==> Children(parent, s)
    requires item != null ==> item !in s
    modifies Ref(parent)`child, Ref(item)`next, Ref(item)`prev, s`next, s`prev
    ensures ok <==> parent != null && item != null && parent != item
    ensures ok ==> (Children(parent, s + [item]) <==> s == [] || old(item.next) == null)
    ensures !ok && parent != null ==> Children(parent, s)
  {
    if item == null || parent == null || parent == item { return false; }
    var child := parent.child;
    if child == null {
      parent.child := item;
      item.prev := item;
      item.next := null;
    } else if child.prev != null {
      child.prev.next := item;
      item.prev := child.prev;
      parent.child.prev := item;
    }
    assert (s + [item])[|s|].next == item.next;
    return true;
  }

  /** `cJSON_DetachItemViaPointer` on the child at position `i`. */
  method Detach(parent: Item, item: Item, ghost s: seq<Item>, ghost i: nat) returns (r: Item?)
    requires Children(parent, s) && i < |s| && item == s[i]
    modifies parent`child, s`next, s`prev
    ensures r == item && item.next == null && item.prev == null
    ensures Children(parent, s[..i] + s[i + 1..])
  {
    if item != parent.child && item.prev == null { return null; }
    Unlink(parent, item, s, i);
    item.prev := null;
    item.next := null;
    ChildrenWithout(parent, s, i);
    return item;
  }

  /** The links around a child once it is taken out. */
  ghost predicate Unlinked(parent: Item, s: seq<Item>, i: nat)
    requires i < |s|
    reads parent, s
  {
    && parent !in s && Distinct(s)
    && parent.child == (if i > 0 then s[0] else NextIn(s, 0))
    && NextsUnlinked(s, i) && PrevsUnlinked(s, i)
  }

  ghost predicate NextsUnlinked(s: seq<Item>, i: nat)
    requires i < |s|
    reads s
  {
    forall k {:trigger s[k].next} :: 0 <= k < |s| && k != i ==> s[k].next == NextIn(s, if k + 1 == i then i else k)
  }

  ghost predicate PrevsUnlinked(s: seq<Item>, i: nat)
    requires i < |s|
    reads s
  {
    forall k {:trigger s[k].prev} :: 0 <= k < |s| && k != i ==>
      s[k].prev == if k == i + 1 then PrevIn(s, i) else if k == 0 && i == |s| - 1 then s[i - 1] else PrevIn(s, k)
  }

  method Unlink(parent: Item, item: Item, ghost s: seq<Item>, ghost i: nat)
    requires Children(parent, s) && i < |s| && item == s[i]
    modifies parent`child, s`next, s`prev
    ensures Unlinked(parent, s, i)
  {
    assert item.next == NextIn(s, i) && item.prev == PrevIn(s, i);
    assert item == parent.child <==> i == 0;
    if item != parent.child { item.prev.next := item.next; }
    if item.next != null { item.next.prev := item.prev; }
    if item == parent.child {
      parent.child := item.next;
    } else if item.next == null {
      parent.child.prev := item.prev;
    }
  }

  lemma ChildrenWithout(parent: Item, s: seq<Item>, i: nat)
    requires i < |s| && Unlinked(parent, s, i)
    ensures Children(parent, s[..i] + s[i + 1..])
  {
    var t := s[..i] + s[i + 1..];
    assert Skips(s, i, t) && parent !in t;
    assert parent.child == if t == [] then null else t[0];
    hide NextsUnlinked, PrevsUnlinked, Skips, NextIn, PrevIn;
    DistinctKept(s, i, t);
    hide Distinct;
    forall k | 0 <= k < |t| ensures t[k].next == NextIn(t, k) { NextsLinked(s, i, t, k); }
    forall k | 0 <= k < |t| ensures t[k].prev == PrevIn(t, k) { PrevsLinked(s, i, t, k); }
  }

  ghost function Skip(i: nat, k: nat): nat { if k < i then k else k + 1 }

  ghost predicate Skips(s: seq<Item>, i: nat, t: seq<Item>)
    requires i < |s|
  {
    |t| == |s| - 1 && forall k :: 0 <= k < |t| ==> t[k] == s[Skip(i, k)]
  }

  lemma NextsLinked(s: seq<Item>, i: nat, t: seq<Item>, k: nat)
    requires i < |s| && NextsUnlinked(s, i) && Skips(s, i, t) && k < |t|
    ensures t[k].next == NextIn(t, k)
  {
    assert s[Skip(i, k)].next == t[k].next;
  }

  lemma PrevsLinked(s: seq<Item>, i: nat, t: seq<Item>, k: nat)
    requires i < |s| && PrevsUnlinked(s, i) && Skips(s, i, t) && k < |t|
    ensures t[k].prev == PrevIn(t, k)
  {
    assert s[Skip(i, k)].prev == t[k].prev;
  }

  lemma DistinctKept(s: seq<Item>, i: nat, t: seq<Item>)
    requires i < |s| && Distinct(s) && Skips(s, i, t)
    ensures Distinct(t)
  {
  }

  /** `cJSON_DetachItemFromArray`: a position outside the list detaches nothing. */
  method DetachFromArray(parent: Item?, which: int, ghost s: seq<Item>) returns (r: Item?)
    requires parent != null ==> Children(parent, s)
    modifies Ref(parent)`child, s`next, s`prev
    ensures r != null <==> parent != null && 0 <= which < |s|
    ensures r != null ==> r == s[which] && r.next == null && Children(parent, s[..which] + s[which + 1..])
    ensures r == null && parent != null ==> Children(parent, s)
  {
    if which < 0 { return null; }
    var item := GetArrayItem(parent, which, s);
    if parent == null || item == null { return null; }
    r := Detach(parent, item, s, which);
  }

  /** `cJSON_InsertItemInArray`: before position `which`, or at the end when there is none. */
  method InsertItem(parent: Item?, which: int, newitem: Item?, ghost s: seq<Item>) returns (ok: bool)
    requires parent != null ==> Children(parent, s)
    requires newitem != null ==> newitem !in s && newitem != parent
    modifies Ref(parent)`child, Ref(newitem)`next, Ref(newitem)`prev, s`next, s`prev
    ensures ok <==> which >= 0 && newitem != null && parent != null
    ensures ok ==> var k := if which < |s| then which else |s|;
                   Children(parent, s[..k] + [newitem] + s[k..]) <==> k < |s| || s == [] || old(newitem.next) == null
    ensures !ok && parent != null ==> Children(parent, s)
  {
    if which < 0 || newitem == null { return false; }
    var after := GetArrayItem(parent, which, s);
    if after == null {
      ok := AddItemToArray(parent, newitem, s);
      assert s[..|s|] + [newitem] + s[|s|..] == s + [newitem];
      return;
    }
    InsertBefore(parent, after, newitem, s, which);
    return true;
  }

  method InsertBefore(parent: Item, after: Item, newitem: Item, ghost s: seq<Item>, ghost k: nat)
    requires Children(parent, s) && k < |s| && after == s[k] && newitem !in s && newitem != parent
    modifies parent`child, newitem`next, newitem`prev, s`next, s`prev
    ensures Children(parent, s[..k] + [newitem] + s[k..])
  {
    assert after.prev == PrevIn(s, k) && (after == parent.child <==> k == 0);
    newitem.next := after;
    newitem.prev := after.prev;
    after.prev := newitem;
    if after == parent.child {
      parent.child := newitem;
    } else {
      newitem.prev.next := newitem;
    }
    assert Inserted(parent, s, k, newitem);
    ChildrenWith(parent, s, k, newitem);
  }

  /** The links around a new item that stands before the child at `k`. */
  ghost predicate Inserted(parent: Item, s: seq<Item>, k: nat, x: Item)
    requires k < |s|
    reads parent, s, x
  {
    && parent !in s && x !in s && x != parent && Distinct(s)
    && parent.child == (if k == 0 then x else s[0]) && x.next == s[k] && x.prev == PrevIn(s, k)
    && (forall i {:trigger s[i].next} :: 0 <= i < |s| ==> s[i].next == if i + 1 == k then x else NextIn(s, i))
    && (forall i {:trigger s[i].prev} :: 0 <= i < |s| ==> s[i].prev == if i == k then x else PrevIn(s, i))
  }

  ghost predicate Makes(s: seq<Item>, k: nat, x: Item, t: seq<Item>)
    requires k < |s|
  {
    |t| == |s| + 1 && forall i :: 0 <= i < |t| ==> t[i] == Placed(s, k, x, i)
  }

  ghost function Placed(s: seq<Item>, k: nat, x: Item, i: nat): Item
    requires k < |s| && i <= |s|
  {
    if i < k then s[i] else if i == k then x else s[i - 1]
  }

  lemma ChildrenWith(parent: Item, s: seq<Item>, k: nat, x: Item)
    requires k < |s| && Inserted(parent, s, k, x)
    ensures Children(parent, s[..k] + [x] + s[k..])
  {
    var t := s[..k] + [x] + s[k..];
    assert Makes(s, k, x, t) && parent !in t;
    assert parent.child == t[0];
    hide Makes;
    assert Distinct(t) by { DistinctWith(parent, s, k, x, t); }
    forall i | 0 <= i < |t| ensures t[i].next == NextIn(t, i) && t[i].prev == PrevIn(t, i) {
      LinkedWith(parent, s, k, x, t, i);
    }
  }

  lemma DistinctWith(parent: Item, s: seq<Item>, k: nat, x: Item, t: seq<Item>)
    requires k < |s| && Inserted(parent, s, k, x) && Makes(s, k, x, t)
    ensures Distinct(t)
  {
    forall i, j | 0 <= i < j < |t| ensures t[i] != t[j] {
      assert t[i] == Placed(s, k, x, i) && t[j] == Placed(s, k, x, j);
    }
  }

  lemma LinkedWith(parent: Item, s: seq<Item>, k: nat, x: Item, t: seq<Item>, i: nat)
    requires k < |s| && Inserted(parent, s, k, x) && Makes(s, k, x, t) && i < |t|
    ensures t[i].next == NextIn(t, i) && t[i].prev == PrevIn(t, i)
  {
    assert t[i] == Placed(s, k, x, i) && t[|t| - 1] == Placed(s, k, x, |t| - 1);
    if i + 1 < |t| { assert t[i + 1] == Placed(s, k, x, i + 1); }
    if i > 0 { assert t[i - 1] == Placed(s, k, x, i - 1); }
    if i != k {
      var j := if i < k then i else i - 1;
      assert t[i] == s[j] && s[j].next == t[i].next && s[j].prev == t[i].prev;
    }
  }

  /** `cJSON_ReplaceItemViaPointer` on the child at position `i`. */
  method Replace(parent: Item, item: Item, replacement: Item?, ghost s: seq<Item>, ghost i: nat) returns (ok: bool)
    requires Children(parent, s) && i < |s| && item == s[i]
    requires replacement != null ==> replacement != parent && (replacement in s ==> replacement == item)
    modifies parent`child, Ref(replacement)`next, Ref(replacement)`prev, s`next, s`prev
    ensures ok <==> replacement != null
    ensures ok ==> Children(parent, s[i := replacement])
    ensures ok && replacement != item ==> item.next == null && item.prev == null
    ensures !ok ==> Children(parent, s)
  {
    if parent.child == null || replacement == null { return false; }
    if replacement == item { return true; }
    Relink(parent, item, replacement, s, i);
    item.next := null;
    item.prev := null;
    return true;
  }

  method Relink(parent: Item, item: Item, replacement: Item, ghost s: seq<Item>, ghost i: nat)
    requires Children(parent, s) && i < |s| && item == s[i] && replacement !in s && replacement != parent
    modifies parent`child, replacement`next, replacement`prev, s`next, s`prev
    ensures Children(parent, s[i := replacement])
  {
    assert item.next == NextIn(s, i) && item.prev == PrevIn(s, i);
    assert item == parent.child <==> i == 0;
    replacement.next := item.next;
    replacement.prev := item.prev;
    if replacement.next != null { replacement.next.prev := replacement; }
    if parent.child == item {
      if parent.child.prev == parent.child { replacement.prev := replacement; }
      parent.child := replacement;
    } else {
      if replacement.prev != null { replacement.prev.next := replacement; }
      if replacement.next == null { parent.child.prev := replacement; }
    }
    assert Relinked(parent, s, i, replacement);
    ChildrenInstead(parent, s, i, replacement);
  }

  /** The links around an item that stands in place of the child at `i`. */
  ghost predicate Relinked(parent: Item, s: seq<Item>, i: nat, x: Item)
    requires i < |s|
    reads parent, s, x
  {
    && parent !in s && x !in s && x != parent && Distinct(s)
    && parent.child == (if i == 0 then x else s[0])
    && x.next == NextIn(s, i) && x.prev == (if |s| == 1 then x else PrevIn(s, i))
    && (forall j {:trigger s[j].next} :: 0 <= j < |s| && j != i ==> s[j].next == if j + 1 == i then x else NextIn(s, j))
    && (forall j {:trigger s[j].prev} :: 0 <= j < |s| && j != i ==>
          s[j].prev == if j == i + 1 || (j == 0 && i == |s| - 1) then x else PrevIn(s, j))
  }

  lemma ChildrenInstead(parent: Item, s: seq<Item>, i: nat, x: Item)
    requires i < |s| && Relinked(parent, s, i, x)
    ensures Children(parent, s[i := x])
  {
    var t := s[i := x];
    forall j | 0 <= j < |t| ensures t[j].next == NextIn(t, j) && t[j].prev == PrevIn(t, j) {
      if j != i { assert t[j] == s[j] && s[j].next == t[j].next && s[j].prev == t[j].prev; }
    }
  }
}
