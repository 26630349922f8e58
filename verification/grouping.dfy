/**
 * Grouping ranked results by file name, as both front ends do before
 * rendering: a dict from file name to the list of that file's results, filled
 * in one pass, so the names come in first-seen order and each list keeps the
 * rank order.
 */
module Grouping {
  import opened Collections

  /** A dict in insertion order: its keys and, for each, the grouped values. */
  type Groups<U> = seq<(string, seq<U>)>

  function GroupKeys<U>(groups: Groups<U>): (r: seq<string>)
    ensures |r| == |groups|
  {
    if groups == [] then [] else GroupKeys(groups[..|groups| - 1]) + [groups[|groups| - 1].0]
  }

  /** Mapping distributes over concatenation. */
  lemma MapSeqAppend<T, U>(a: seq<T>, b: seq<T>, f: T -> U)
    ensures MapSeq(a + b, f) == MapSeq(a, f) + MapSeq(b, f)
  {
  }

  /** What one more item does to the names seen and to each name's items. */
  lemma GroupStep<T>(items: seq<T>, i: nat, name: T -> string)
    requires i < |items|
    ensures MapSeq(items[..i + 1], name) == MapSeq(items[..i], name) + [name(items[i])]
    ensures forall k :: WithKey(items[..i + 1], name, k)
                     == WithKey(items[..i], name, k) + (if name(items[i]) == k then [items[i]] else [])
    ensures name(items[i]) !in MapSeq(items[..i], name) ==> WithKey(items[..i], name, name(items[i])) == []
  {
    var item := items[i];
    assert items[..i + 1] == items[..i] + [item];
    MapSeqAppend(items[..i], [item], name);
    forall k ensures WithKey(items[..i + 1], name, k)
                  == WithKey(items[..i], name, k) + (if name(item) == k then [item] else []) {
      WithKeyAppend(items[..i], [item], name, k);
    }
    var w := WithKey(items[..i], name, name(item));
    if w != [] {
      WithKeySound(items[..i], name, name(item), w[0]);
      var p :| 0 <= p < i && items[..i][p] == w[0];
      assert MapSeq(items[..i], name)[p] == name(item);
    }
  }

  /** `dict` maps each of its keys to the projected items of that name among the first `n`. */
  ghost predicate GroupedUpTo<T, U>(dict: map<string, seq<U>>, items: seq<T>, n: nat, name: T -> string, proj: T -> U)
    requires n <= |items|
  {
    forall k :: k in dict ==> dict[k] == MapSeq(WithKey(items[..n], name, k), proj)
  }

  /** `groups.setdefault(name(item), []).append(proj(item))` on a dict. */
  function Append<U>(dict: map<string, seq<U>>, k: string, v: U): map<string, seq<U>> {
    if k in dict then dict[k := dict[k] + [v]] else dict[k := [v]]
  }

  lemma DictStep<T, U>(dict: map<string, seq<U>>, items: seq<T>, i: nat, name: T -> string, proj: T -> U)
    requires i < |items| && GroupedUpTo(dict, items, i, name, proj)
    requires name(items[i]) !in dict ==> name(items[i]) !in MapSeq(items[..i], name)
    ensures GroupedUpTo(Append(dict, name(items[i]), proj(items[i])), items, i + 1, name, proj)
  {
    GroupStep(items, i, name);
    var k := name(items[i]);
    MapSeqAppend(WithKey(items[..i], name, k), [items[i]], proj);
  }

  /** The dict loop: the keys in insertion order and each key's list. */
  method CollectGroups<T, U>(items: seq<T>, name: T -> string, proj: T -> U)
    returns (keys: seq<string>, dict: map<string, seq<U>>)
    ensures keys == Dedup(MapSeq(items, name))
    ensures forall k :: k in dict <==> k in keys
    ensures forall k :: k in dict ==> dict[k] == MapSeq(WithKey(items, name, k), proj)
  {
    keys := [];
    dict := map[];
    for i := 0 to |items|
      invariant keys == Dedup(MapSeq(items[..i], name))
      invariant forall k :: k in dict <==> k in keys
      invariant GroupedUpTo(dict, items, i, name, proj)
    {
      var item := items[i];
      var k := name(item);
      GroupStep(items, i, name);
      DedupSnoc(MapSeq(items[..i], name), k);
      DictStep(dict, items, i, name, proj);
      if k !in dict {
        keys := keys + [k];
      }
      dict := Append(dict, k, proj(item));
    }
    assert items[..|items|] == items;
  }

  /** Reading the dict back: one (key, list) pair per key, in insertion order. */
  method DictItems<T, U>(keys: seq<string>, dict: map<string, seq<U>>, items: seq<T>, name: T -> string, proj: T -> U)
    returns (groups: Groups<U>)
    requires forall k :: k in dict <==> k in keys
    requires forall k :: k in dict ==> dict[k] == MapSeq(WithKey(items, name, k), proj)
    ensures GroupKeys(groups) == keys
    ensures forall i :: 0 <= i < |groups| ==> groups[i].1 == MapSeq(WithKey(items, name, groups[i].0), proj)
  {
    groups := [];
    for j := 0 to |keys|
      invariant GroupKeys(groups) == keys[..j]
      invariant forall i :: 0 <= i < |groups| ==> groups[i].1 == MapSeq(WithKey(items, name, groups[i].0), proj)
    {
      assert keys[j] in dict;
      ghost var before := groups;
      groups := groups + [(keys[j], dict[keys[j]])];
      assert groups[..|groups| - 1] == before;
      assert keys[..j + 1] == keys[..j] + [keys[j]];
    }
    assert keys[..|keys|] == keys;
  }

  /**
   * `for r in items: groups.setdefault(name(r), []).append(proj(r))`, read
   * back in insertion order.
   */
  method GroupBy<T, U>(items: seq<T>, name: T -> string, proj: T -> U) returns (groups: Groups<U>)
    ensures GroupKeys(groups) == Dedup(MapSeq(items, name))
    ensures forall i :: 0 <= i < |groups| ==> groups[i].1 == MapSeq(WithKey(items, name, groups[i].0), proj)
  {
    var keys, dict := CollectGroups(items, name, proj);
    groups := DictItems(keys, dict, items, name, proj);
  }

  /** `GroupKeys` reads off the first components. */
  lemma {:induction false} GroupKeysAt<U>(groups: Groups<U>, i: nat)
    requires i < |groups|
    ensures GroupKeys(groups)[i] == groups[i].0
  {
    if i < |groups| - 1 {
      GroupKeysAt(groups[..|groups| - 1], i);
    }
  }

  /** Every item lands in the group of its name, and no name has two groups. */
  lemma ItemInItsGroup<T, U>(items: seq<T>, name: T -> string, proj: T -> U, groups: Groups<U>, x: T)
    requires GroupKeys(groups) == Dedup(MapSeq(items, name))
    requires forall i :: 0 <= i < |groups| ==> groups[i].1 == MapSeq(WithKey(items, name, groups[i].0), proj)
    requires x in items
    ensures exists i :: 0 <= i < |groups| && groups[i].0 == name(x) && proj(x) in groups[i].1
    ensures forall i, j :: 0 <= i < j < |groups| ==> groups[i].0 != groups[j].0
  {
    var keys := GroupKeys(groups);
    assert name(x) in keys by {
      var xi :| 0 <= xi < |items| && items[xi] == x;
      assert MapSeq(items, name)[xi] == name(x);
    }
    var i :| 0 <= i < |keys| && keys[i] == name(x);
    GroupKeysAt(groups, i);
    var w := WithKey(items, name, name(x));
    WithKeyComplete(items, name, name(x), x);
    var wi :| 0 <= wi < |w| && w[wi] == x;
    assert groups[i].1[wi] == proj(x);
    forall i, j | 0 <= i < j < |groups| ensures groups[i].0 != groups[j].0 {
      GroupKeysAt(groups, i);
      GroupKeysAt(groups, j);
    }
  }
}
