/** Decoded JSON values as the Python program sees them after
    `response.json()`, and the two Python operations the lookup applies to
    them: the membership test `key in data` and `data.get(key)`. */
module Json {
  import Text

  datatype Option<+T> = None | Some(value: T)

  /** A decoded JSON document. An object keeps the member list exactly as
      the response text had it; the Python dictionary built from it is
      derived below (a later member with the same key overrides an earlier
      one, and keys keep the position of their first appearance). Numbers
      are integers only. */
  datatype Json =
    | JNull
    | JBool(b: bool)
    | JNum(n: int)
    | JStr(s: string)
    | JArr(items: seq<Json>)
    | JObj(members: seq<(string, Json)>)

  /** The result of a Python expression that may raise: its value, or the
      message of the exception it raised. */
  datatype Py<+T> = Value(value: T) | Raise(msg: string)

  /** Python's name for the type `json.loads` gives each kind of value. */
  function TypeName(j: Json): string {
    match j
    case JNull => "NoneType"
    case JBool(_) => "bool"
    case JNum(_) => "int"
    case JStr(_) => "str"
    case JArr(_) => "list"
    case JObj(_) => "dict"
  }

  /** Position of the last member named `key` among the first `n`, or -1
      when there is none. */
  function LastIndexBefore(members: seq<(string, Json)>, key: string, n: nat): (r: int)
    requires n <= |members|
    ensures -1 <= r < n
    ensures r >= 0 ==> members[r].0 == key
    ensures forall k :: r < k < n ==> members[k].0 != key
  {
    if n == 0 then -1
    else if members[n - 1].0 == key then n - 1
    else LastIndexBefore(members, key, n - 1)
  }

  /** Position of the last member named `key`, or -1 when there is none. */
  function LastIndexOf(members: seq<(string, Json)>, key: string): (r: int)
    ensures -1 <= r < |members|
    ensures r >= 0 ==> members[r].0 == key
    ensures forall k :: r < k < |members| ==> members[k].0 != key
  {
    LastIndexBefore(members, key, |members|)
  }

  /** Some member of the list is named `key`. */
  ghost predicate Names(members: seq<(string, Json)>, key: string) {
    exists k :: 0 <= k < |members| && members[k].0 == key
  }

  /** Python's `key in d` for the dictionary decoded from `members`. */
  function HasKey(members: seq<(string, Json)>, key: string): (r: bool)
    ensures r <==> Names(members, key)
  {
    LastIndexOf(members, key) >= 0
  }

  /** Python's `d.get(key)` for the dictionary decoded from `members`:
      absent keys give `None`, a repeated key gives its last value. */
  function Get(members: seq<(string, Json)>, key: string): (r: Option<Json>)
    ensures r.None? <==> !Names(members, key)
    ensures r.Some? ==> exists k :: 0 <= k < |members| && members[k] == (key, r.value)
    ensures r.Some? ==> forall k, v :: 0 <= k < |members| && members[k] == (key, v) ==>
                          v == r.value || exists m :: k < m < |members| && members[m].0 == key
  {
    var k := LastIndexOf(members, key);
    if k < 0 then None else Some(members[k].1)
  }

  /** The value of a key is the one at its last position. */
  lemma GetLast(members: seq<(string, Json)>, k: nat)
    requires k < |members|
    requires forall m :: k < m < |members| ==> members[m].0 != members[k].0
    ensures Get(members, members[k].0) == Some(members[k].1)
  {
    var i := LastIndexOf(members, members[k].0);
    assert i == k;
  }

  /** No key appears twice in the member list. */
  predicate DistinctKeys(members: seq<(string, Json)>) {
    forall a, b :: 0 <= a < b < |members| ==> members[a].0 != members[b].0
  }

  /** The items of the dictionary `json.loads` builds, restricted to the keys
      whose first appearance is at position `i` or later: one item per key,
      in order of first appearance, holding the key's last value. */
  function DictFrom(members: seq<(string, Json)>, i: nat): seq<(string, Json)>
    requires i <= |members|
    decreases |members| - i
  {
    if i == |members| then []
    else
      var key := members[i].0;
      var rest := DictFrom(members, i + 1);
      if LastIndexBefore(members, key, i) >= 0 then rest
      else [(key, members[LastIndexOf(members, key)].1)] + rest
  }

  /** The items of the dictionary decoded from `members`, in Python's
      iteration order. */
  function DictItems(members: seq<(string, Json)>): seq<(string, Json)> {
    DictFrom(members, 0)
  }

  /** One step of `DictFrom`. */
  lemma DictFromStep(members: seq<(string, Json)>, i: nat)
    requires i < |members|
    ensures DictFrom(members, i) ==
            if LastIndexBefore(members, members[i].0, i) >= 0 then DictFrom(members, i + 1)
            else [(members[i].0, members[LastIndexOf(members, members[i].0)].1)] + DictFrom(members, i + 1)
  {
  }

  /** One more position of the scan behind `LastIndexBefore`. */
  lemma LastIndexStep(members: seq<(string, Json)>, key: string, n: nat)
    requires n < |members|
    ensures LastIndexBefore(members, key, n + 1) ==
            if members[n].0 == key then n else LastIndexBefore(members, key, n)
  {
  }

  /** `item` is the item of a key with no appearance before `i`, holding
      the value `.get` returns for it. */
  ghost predicate FreshItem(members: seq<(string, Json)>, i: nat, item: (string, Json))
    requires i <= |members|
  {
    LastIndexBefore(members, item.0, i) < 0 && Get(members, item.0) == Some(item.1)
  }

  /** Every item's key first appears at `i` or later, and its value is the
      one `.get` returns. */
  lemma {:induction false} DictFromValues(members: seq<(string, Json)>, i: nat)
    requires i <= |members|
    ensures forall k :: 0 <= k < |DictFrom(members, i)| ==> FreshItem(members, i, DictFrom(members, i)[k])
    decreases |members| - i
  {
    if i < |members| {
      var key := members[i].0;
      var rest := DictFrom(members, i + 1);
      var d := DictFrom(members, i);
      DictFromValues(members, i + 1);
      forall k | 0 <= k < |rest|
        ensures FreshItem(members, i, rest[k])
      {
        assert FreshItem(members, i + 1, rest[k]);
        LastIndexStep(members, rest[k].0, i);
      }
      if LastIndexBefore(members, key, i) < 0 {
        var last := LastIndexOf(members, key);
        assert d == [(key, members[last].1)] + rest;
        GetLast(members, last);
        assert FreshItem(members, i, d[0]);
        forall k | 1 <= k < |d|
          ensures FreshItem(members, i, d[k])
        {
          assert d[k] == rest[k - 1];
        }
      }
    }
  }

  /** Items from the position after `i` never carry the key at position `i`. */
  lemma DictFromAvoids(members: seq<(string, Json)>, i: nat)
    requires i < |members|
    ensures !Names(DictFrom(members, i + 1), members[i].0)
  {
    var rest := DictFrom(members, i + 1);
    DictFromValues(members, i + 1);
    forall k | 0 <= k < |rest|
      ensures rest[k].0 != members[i].0
    {
      assert FreshItem(members, i + 1, rest[k]);
      LastIndexStep(members, rest[k].0, i);
    }
  }

  /** Putting an item with a new key in front keeps the keys distinct. */
  lemma DistinctCons(item: (string, Json), rest: seq<(string, Json)>)
    requires DistinctKeys(rest)
    requires !Names(rest, item.0)
    ensures DistinctKeys([item] + rest)
  {
    var d := [item] + rest;
    forall a, b | 0 <= a < b < |d|
      ensures d[a].0 != d[b].0
    {
      assert d[b] == rest[b - 1];
      if a > 0 {
        assert d[a] == rest[a - 1];
      }
    }
  }

  /** No two items share a key. */
  lemma {:induction false} DictFromDistinct(members: seq<(string, Json)>, i: nat)
    requires i <= |members|
    ensures DistinctKeys(DictFrom(members, i))
    decreases |members| - i
  {
    if i < |members| {
      var key := members[i].0;
      DictFromDistinct(members, i + 1);
      if LastIndexBefore(members, key, i) < 0 {
        DictFromAvoids(members, i);
        DistinctCons((key, members[LastIndexOf(members, key)].1), DictFrom(members, i + 1));
      }
    }
  }

  /** Every key whose first appearance is at `i` or later has an item. */
  lemma {:induction false} DictFromCovers(members: seq<(string, Json)>, i: nat)
    requires i <= |members|
    ensures forall q :: i <= q < |members| && LastIndexBefore(members, members[q].0, i) < 0 ==>
              Names(DictFrom(members, i), members[q].0)
    decreases |members| - i
  {
    if i < |members| {
      var key := members[i].0;
      var d := DictFrom(members, i);
      var rest := DictFrom(members, i + 1);
      DictFromCovers(members, i + 1);
      forall q | i <= q < |members| && LastIndexBefore(members, members[q].0, i) < 0
        ensures Names(d, members[q].0)
      {
        if members[q].0 == key {
          assert d[0].0 == key;
        } else {
          LastIndexStep(members, members[q].0, i);
          var k :| 0 <= k < |rest| && rest[k].0 == members[q].0;
          if LastIndexBefore(members, key, i) < 0 {
            assert d[k + 1] == rest[k];
          } else {
            assert d[k] == rest[k];
          }
        }
      }
    }
  }

  /** Items come in order of first appearance: the key of an earlier item
      appears (at `i` or later) before any appearance of a later item's key. */
  lemma {:induction false} DictFromOrder(members: seq<(string, Json)>, i: nat)
    requires i <= |members|
    ensures OrderedFrom(members, i, DictFrom(members, i))
    decreases |members| - i
  {
    if i < |members| {
      var rest := DictFrom(members, i + 1);
      DictFromOrder(members, i + 1);
      DictFromAvoids(members, i);
      DictFromStep(members, i);
      if LastIndexBefore(members, members[i].0, i) >= 0 {
        OrderedLater(members, i, rest);
      } else {
        OrderedCons(members, i, (members[i].0, members[LastIndexOf(members, members[i].0)].1), rest);
      }
    }
  }

  /** `d` lists keys in order of their first appearance at `i` or later. */
  ghost predicate OrderedFrom(members: seq<(string, Json)>, i: nat, d: seq<(string, Json)>)
    requires i <= |members|
  {
    forall a, b, q :: 0 <= a < b < |d| && i <= q < |members| && members[q].0 == d[b].0 ==>
      LastIndexBefore(members, d[a].0, q) >= i
  }

  /** An order from `i + 1` holds from `i` when no key is the one at `i`. */
  lemma OrderedLater(members: seq<(string, Json)>, i: nat, d: seq<(string, Json)>)
    requires i < |members| && OrderedFrom(members, i + 1, d)
    requires !Names(d, members[i].0)
    ensures OrderedFrom(members, i, d)
  {
    forall a, b, q | 0 <= a < b < |d| && i <= q < |members| && members[q].0 == d[b].0
      ensures LastIndexBefore(members, d[a].0, q) >= i
    {
      assert q != i;
    }
  }

  /** The key at `i` put in front of an order from `i + 1` that avoids it. */
  lemma OrderedCons(members: seq<(string, Json)>, i: nat, item: (string, Json), d: seq<(string, Json)>)
    requires i < |members| && item.0 == members[i].0 && OrderedFrom(members, i + 1, d)
    requires !Names(d, members[i].0)
    ensures OrderedFrom(members, i, [item] + d)
  {
    var e := [item] + d;
    forall a, b, q | 0 <= a < b < |e| && i <= q < |members| && members[q].0 == e[b].0
      ensures LastIndexBefore(members, e[a].0, q) >= i
    {
      assert e[b] == d[b - 1];
      assert q != i;
      if a > 0 {
        assert e[a] == d[a - 1];
      }
    }
  }

  /** The decoded dictionary: distinct keys, exactly the keys of the member
      list, each with the value `.get` returns, in order of first
      appearance. */
  lemma DictItemsSpec(members: seq<(string, Json)>)
    ensures DistinctKeys(DictItems(members))
    ensures forall key :: Names(DictItems(members), key) <==> Names(members, key)
    ensures forall k :: 0 <= k < |DictItems(members)| ==>
              Get(members, DictItems(members)[k].0) == Some(DictItems(members)[k].1)
    ensures forall a, b, q :: 0 <= a < b < |DictItems(members)| && 0 <= q < |members|
                               && members[q].0 == DictItems(members)[b].0 ==>
              LastIndexBefore(members, DictItems(members)[a].0, q) >= 0
  {
    var d := DictItems(members);
    DictFromDistinct(members, 0);
    DictFromValues(members, 0);
    DictFromCovers(members, 0);
    DictFromOrder(members, 0);
    forall key
      ensures Names(d, key) <==> Names(members, key)
    {
      if Names(d, key) {
        var k :| 0 <= k < |d| && d[k].0 == key;
        assert FreshItem(members, 0, d[k]);
      }
      if Names(members, key) {
        var q :| 0 <= q < |members| && members[q].0 == key;
        assert LastIndexBefore(members, members[q].0, 0) < 0;
      }
    }
    forall k | 0 <= k < |d|
      ensures Get(members, d[k].0) == Some(d[k].1)
    {
      assert FreshItem(members, 0, d[k]);
    }
  }

  /** Without repeated keys the dictionary holds the members as they are. */
  lemma {:induction false} DictFromDistinctKeys(members: seq<(string, Json)>, i: nat)
    requires DistinctKeys(members) && i <= |members|
    ensures DictFrom(members, i) == members[i..]
    decreases |members| - i
  {
    if i < |members| {
      var key := members[i].0;
      assert LastIndexBefore(members, key, i) < 0;
      assert LastIndexOf(members, key) == i;
      DictFromDistinctKeys(members, i + 1);
      assert [(key, members[i].1)] + members[i + 1..] == members[i..];
    }
  }

  lemma DictItemsDistinct(members: seq<(string, Json)>)
    requires DistinctKeys(members)
    ensures DictItems(members) == members
  {
    DictFromDistinctKeys(members, 0);
  }

  /** `None`, booleans and numbers: the JSON values that are not containers. */
  predicate IsScalar(j: Json) {
    j.JNull? || j.JBool? || j.JNum?
  }

  /** Python's `needle in data` for a string `needle` and whatever JSON value
      `data` is: key membership for a dictionary, element equality for a
      list, substring for a string, and a TypeError for the scalars. */
  function PyIn(needle: string, data: Json): (r: Py<bool>)
    ensures data.JObj? ==> r == Value(Names(data.members, needle))
    ensures data.JArr? ==> r == Value(exists k :: 0 <= k < |data.items| && data.items[k] == JStr(needle))
    ensures data.JStr? ==> r == Value(Text.OccursIn(data.s, needle))
    ensures IsScalar(data) ==>
              r == Raise("argument of type '" + TypeName(data) + "' is not iterable")
  {
    match data
    case JObj(members) => Value(HasKey(members, needle))
    case JArr(items) => Value(JStr(needle) in items)
    case JStr(s) => Value(Text.HasSubstring(s, needle))
    case _ => Raise("argument of type '" + TypeName(data) + "' is not iterable")
  }

  /** Python's `data.get(key)` on any JSON value: only a dictionary has a
      `get` method; on anything else the attribute lookup raises. */
  function PyGet(data: Json, key: string): (r: Py<Option<Json>>)
    ensures r.Raise? <==> !data.JObj?
    ensures r.Raise? ==> r.msg == "'" + TypeName(data) + "' object has no attribute 'get'"
    ensures r.Value? ==> (r.value.None? <==> !Names(data.members, key))
    ensures r.Value? ==> r.value == Get(data.members, key)
  {
    match data
    case JObj(members) => Value(Get(members, key))
    case _ => Raise("'" + TypeName(data) + "' object has no attribute 'get'")
  }
}
