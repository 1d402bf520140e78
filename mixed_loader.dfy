/** `load_mixed_objects` of blog/models.py: turn a list of `{type, pk}`
    references into the records they name, fetching each kind in one batch
    and handing the objects back in the order of the references. */
module MixedLoader {
  import opened Content

  /** One reference dictionary: its `type` and `pk` keys, and whatever else
      the caller put in it. */
  datatype RefDict = RefDict(typeName: string, pk: int, rest: map<string, string>)

  function DictKey(d: RefDict): Key
  {
    Key(d.typeName, d.pk)
  }

  /** The record of `table` whose primary key is `pk`, if any. */
  function Find(table: seq<Item>, pk: int): (r: Option<Item>)
    ensures r.Some? ==> r.value in table && r.value.pk == pk
    ensures r.None? <==> forall x :: x in table ==> x.pk != pk
  {
    if table == [] then None
    else if table[0].pk == pk then Some(table[0])
    else
      assert table == [table[0]] + table[1..];
      Find(table[1..], pk)
  }

  /** In a table with a primary key, a record is what its own key finds. */
  lemma {:induction false} FindUnique(table: seq<Item>, x: Item)
    requires UniquePks(table)
    requires x in table
    ensures Find(table, x.pk) == Some(x)
  {
    if table[0] != x {
      assert table[0].pk != x.pk by {
        var k :| 0 <= k < |table| && table[k] == x;
        assert k != 0;
      }
      assert UniquePks(table[1..]);
      FindUnique(table[1..], x);
    }
  }

  /** The record a key names: none for a type that is not a model name. */
  function Lookup(db: Store, key: Key): Option<Item>
  {
    Find(db.Table(key.typeName), key.pk)
  }

  /** The last reference of `dicts` with the given key. */
  function LastDict(dicts: seq<RefDict>, key: Key): (r: Option<RefDict>)
    ensures r.Some? ==> r.value in dicts && DictKey(r.value) == key
    ensures r.None? <==> forall d :: d in dicts ==> DictKey(d) != key
  {
    if dicts == [] then None
    else
      var last := dicts[|dicts| - 1];
      assert dicts == dicts[..|dicts| - 1] + [last];
      if DictKey(last) == key then Some(last) else LastDict(dicts[..|dicts| - 1], key)
  }

  /** The value view of one returned object: the record and `original_dict`. */
  datatype Loaded = Loaded(record: Item, originalDict: Option<RefDict>)

  /** What `load_mixed_objects(dicts)` returns, as values. */
  function LoadMixed(db: Store, dicts: seq<RefDict>): seq<Option<Loaded>>
  {
    seq(|dicts|, i requires 0 <= i < |dicts| =>
      match Lookup(db, DictKey(dicts[i]))
      case None => None
      case Some(x) => Some(Loaded(x, LastDict(dicts, DictKey(dicts[i])))))
  }

  /** Slot `i` holds the record of the kind and primary key of `dicts[i]`, or
      nothing when there is no such record (always so for a type that is not
      a model name). */
  lemma LoadMixedSlots(db: Store, dicts: seq<RefDict>)
    requires db.Valid()
    ensures var r := LoadMixed(db, dicts);
      && |r| == |dicts|
      && (forall i :: 0 <= i < |r| ==>
            (r[i].None? <==> forall x :: x in db.Table(dicts[i].typeName) ==> x.pk != dicts[i].pk))
      && (forall i :: 0 <= i < |r| && !IsTypeName(dicts[i].typeName) ==> r[i].None?)
      && (forall i :: 0 <= i < |r| && r[i].Some? ==>
            && r[i].value.record in db.Table(dicts[i].typeName)
            && KeyOf(r[i].value.record) == DictKey(dicts[i]))
  {
  }

  /** A found record carries the last reference with its key, which sits at
      or after its own slot. */
  lemma LoadMixedOriginalDict(db: Store, dicts: seq<RefDict>)
    ensures var r := LoadMixed(db, dicts);
      forall i :: 0 <= i < |r| && r[i].Some? ==>
        exists m :: i <= m < |dicts| && r[i].value.originalDict == Some(dicts[m])
          && DictKey(dicts[m]) == DictKey(dicts[i])
          && forall j :: m < j < |dicts| ==> DictKey(dicts[j]) != DictKey(dicts[i])
  {
    var r := LoadMixed(db, dicts);
    forall i | 0 <= i < |r| && r[i].Some?
      ensures exists m :: i <= m < |dicts| && r[i].value.originalDict == Some(dicts[m])
                && DictKey(dicts[m]) == DictKey(dicts[i])
                && forall j :: m < j < |dicts| ==> DictKey(dicts[j]) != DictKey(dicts[i])
    {
      LastDictPosition(dicts, i);
      var m :| i <= m && LastAt(dicts, m, DictKey(dicts[i])) && LastDict(dicts, DictKey(dicts[i])) == Some(dicts[m]);
    }
  }

  /** `dicts[m]` has the key and no reference after it does. */
  predicate LastAt(dicts: seq<RefDict>, m: nat, key: Key)
  {
    m < |dicts| && DictKey(dicts[m]) == key && forall j :: m < j < |dicts| ==> DictKey(dicts[j]) != key
  }

  /** The last reference with the key of `dicts[i]` sits at or after `i`, and
      nothing after it has that key. */
  lemma {:induction false} LastDictPosition(dicts: seq<RefDict>, i: nat)
    requires i < |dicts|
    ensures exists m :: i <= m && LastAt(dicts, m, DictKey(dicts[i]))
                        && LastDict(dicts, DictKey(dicts[i])) == Some(dicts[m])
  {
    var n := |dicts| - 1;
    var key := DictKey(dicts[i]);
    if DictKey(dicts[n]) == key {
      assert LastAt(dicts, n, key);
    } else {
      var front := dicts[..n];
      assert front[i] == dicts[i];
      LastDictPosition(front, i);
      var m :| i <= m && LastAt(front, m, key) && LastDict(front, key) == Some(front[m]);
      assert dicts[m] == front[m];
      assert LastAt(dicts, m, key);
    }
  }

  /** References with the same type and pk get the same value. */
  lemma LoadMixedRepeats(db: Store, dicts: seq<RefDict>, i: nat, j: nat)
    requires i < |dicts| && j < |dicts|
    requires DictKey(dicts[i]) == DictKey(dicts[j])
    ensures LoadMixed(db, dicts)[i] == LoadMixed(db, dicts)[j]
  {
  }

  /** A fetched ORM object: its record, and the `original_dict` attribute the
      loader attaches. */
  class ModelObject {
    const record: Item
    var originalDict: Option<RefDict>

    constructor (record: Item)
      ensures this.record == record && originalDict == None
    {
      this.record := record;
      originalDict := None;
    }
  }

  function Objects(result: seq<Option<ModelObject>>): set<ModelObject>
  {
    set i | 0 <= i < |result| && result[i].Some? :: result[i].value
  }

  /** The values the returned objects hold. */
  function View(result: seq<Option<ModelObject>>): seq<Option<Loaded>>
    reads Objects(result)
  {
    seq(|result|, i requires 0 <= i < |result| reads Objects(result) =>
      match result[i]
      case None => None
      case Some(o) => Some(Loaded(o.record, o.originalDict)))
  }

  /** The pks of the first `n` references whose type is `t`. */
  ghost function Wanted(dicts: seq<RefDict>, n: nat, t: string): set<int>
    requires n <= |dicts|
  {
    set j | 0 <= j < n && dicts[j].typeName == t :: dicts[j].pk
  }

  lemma WantedNext(dicts: seq<RefDict>, n: nat, t: string)
    requires n < |dicts|
    ensures Wanted(dicts, n + 1, t)
         == Wanted(dicts, n, t) + (if dicts[n].typeName == t then {dicts[n].pk} else {})
  {
    var next := Wanted(dicts, n, t) + (if dicts[n].typeName == t then {dicts[n].pk} else {});
    forall p | p in next
      ensures p in Wanted(dicts, n + 1, t)
    {
      if p !in Wanted(dicts, n, t) {
        assert dicts[n].typeName == t && p == dicts[n].pk;
      }
    }
  }

  /** The records of `table` whose pk is in `ids`: `filter(pk__in=ids)`. */
  function Filter(table: seq<Item>, ids: set<int>): (r: seq<Item>)
    ensures forall x :: x in r <==> x in table && x.pk in ids
  {
    if table == [] then []
    else
      assert table == [table[0]] + table[1..];
      (if table[0].pk in ids then [table[0]] else []) + Filter(table[1..], ids)
  }

  /** The first loop: `to_fetch.setdefault(d['type'], set()).add(d['pk'])`. */
  method GroupByType(dicts: seq<RefDict>) returns (toFetch: map<string, set<int>>)
    ensures forall t :: t in toFetch ==> toFetch[t] == Wanted(dicts, |dicts|, t)
    ensures forall t :: t !in toFetch ==> Wanted(dicts, |dicts|, t) == {}
  {
    toFetch := map[];
    for i := 0 to |dicts|
      invariant forall t :: t in toFetch ==> toFetch[t] == Wanted(dicts, i, t)
      invariant forall t :: t !in toFetch ==> Wanted(dicts, i, t) == {}
    {
      var d := dicts[i];
      forall t
        ensures Wanted(dicts, i + 1, t) == Wanted(dicts, i, t) + (if d.typeName == t then {d.pk} else {})
      {
        WantedNext(dicts, i, t);
      }
      var pks := if d.typeName in toFetch then toFetch[d.typeName] else {};
      toFetch := toFetch[d.typeName := pks + {d.pk}];
    }
  }

  /** No two keys share an object. */
  predicate Injective(fetched: map<Key, ModelObject>)
  {
    forall k1, k2 :: k1 in fetched && k2 in fetched && k1 != k2 ==> fetched[k1] != fetched[k2]
  }

  /** `for obj in objects: fetched[(key, obj.pk)] = obj`, each object a new
      instance. */
  method FetchKind(fetched0: map<Key, ModelObject>, key: string, objects: seq<Item>)
    returns (fetched: map<Key, ModelObject>)
    requires Injective(fetched0)
    requires forall k :: k in fetched0 ==> k.typeName != key
    ensures Injective(fetched)
    ensures forall k :: k in fetched <==> k in fetched0 || (k.typeName == key && exists x :: x in objects && x.pk == k.pk)
    ensures forall k :: k in fetched0 ==> fetched[k] == fetched0[k]
    ensures forall k :: k in fetched && k !in fetched0 ==>
      fresh(fetched[k]) && fetched[k].record in objects && fetched[k].record.pk == k.pk
      && fetched[k].originalDict.None?
  {
    fetched := fetched0;
    for i := 0 to |objects|
      invariant Injective(fetched)
      invariant forall k :: k in fetched <==> k in fetched0 || (k.typeName == key && exists j :: 0 <= j < i && objects[j].pk == k.pk)
      invariant forall k :: k in fetched0 ==> fetched[k] == fetched0[k]
      invariant forall k :: k in fetched && k !in fetched0 ==>
        fresh(fetched[k]) && fetched[k].record in objects && fetched[k].record.pk == k.pk
        && fetched[k].originalDict.None?
    {
      var obj := new ModelObject(objects[i]);
      fetched := fetched[Key(key, objects[i].pk) := obj];
    }
    forall k: Key | k.typeName == key && exists x :: x in objects && x.pk == k.pk
      ensures k in fetched
    {
      var x :| x in objects && x.pk == k.pk;
      var j :| 0 <= j < |objects| && objects[j] == x;
    }
  }

  /** One round of the second loop: `filter(pk__in=ids)` over the table of
      `kind` and `fetched[(kind, obj.pk)] = obj` for each record found. */
  method FetchTable(db: Store, dicts: seq<RefDict>, toFetch: map<string, set<int>>,
                    fetched0: map<Key, ModelObject>, kind: string)
    returns (fetched: map<Key, ModelObject>)
    requires db.Valid() && IsTypeName(kind)
    requires forall t :: t in toFetch ==> toFetch[t] == Wanted(dicts, |dicts|, t)
    requires forall t :: t !in toFetch ==> Wanted(dicts, |dicts|, t) == {}
    requires Injective(fetched0)
    requires forall k :: k in fetched0 ==> k.typeName != kind
    ensures Injective(fetched)
    ensures forall k :: k in fetched <==>
      (k in fetched0 || (k.typeName == kind && k.pk in Wanted(dicts, |dicts|, kind) && Lookup(db, k).Some?))
    ensures forall k :: k in fetched0 ==> fetched[k] == fetched0[k]
    ensures forall k :: k in fetched && k !in fetched0 ==>
      fresh(fetched[k]) && Some(fetched[k].record) == Lookup(db, k) && fetched[k].originalDict.None?
  {
    var ids := if kind in toFetch then toFetch[kind] else {};
    var table := db.Table(kind);
    fetched := FetchKind(fetched0, kind, Filter(table, ids));
    forall k' | k' in fetched && k' !in fetched0
      ensures Some(fetched[k'].record) == Lookup(db, k')
      ensures k'.pk in Wanted(dicts, |dicts|, kind)
    {
      FindUnique(table, fetched[k'].record);
    }
    forall k': Key | k'.typeName == kind && k'.pk in ids && Lookup(db, k').Some?
      ensures k' in fetched
    {
      assert Lookup(db, k').value in Filter(table, ids);
    }
  }

  /** The second loop, over the three kinds in turn. */
  method FetchAll(db: Store, dicts: seq<RefDict>, toFetch: map<string, set<int>>)
    returns (fetched: map<Key, ModelObject>)
    requires db.Valid()
    requires forall t :: t in toFetch ==> toFetch[t] == Wanted(dicts, |dicts|, t)
    requires forall t :: t !in toFetch ==> Wanted(dicts, |dicts|, t) == {}
    ensures Injective(fetched)
    ensures forall key :: key in fetched <==>
      IsTypeName(key.typeName) && key.pk in Wanted(dicts, |dicts|, key.typeName) && Lookup(db, key).Some?
    ensures forall key :: key in fetched ==>
      fresh(fetched[key]) && Some(fetched[key].record) == Lookup(db, key) && fetched[key].originalDict.None?
  {
    fetched := map[];
    var kinds := ["blogmark", "entry", "quotation"];
    for k := 0 to |kinds|
      invariant Injective(fetched)
      invariant forall key :: key in fetched <==>
        key.typeName in kinds[..k] && key.pk in Wanted(dicts, |dicts|, key.typeName) && Lookup(db, key).Some?
      invariant forall key :: key in fetched ==>
        fresh(fetched[key]) && Some(fetched[key].record) == Lookup(db, key) && fetched[key].originalDict.None?
    {
      assert kinds[..k + 1] == kinds[..k] + [kinds[k]];
      fetched := FetchTable(db, dicts, toFetch, fetched, kinds[k]);
    }
    assert kinds[..3] == kinds;
  }

  /** The third loop: each reference in turn gets its object, if any, and
      becomes that object's `original_dict`. */
  method AttachDicts(fetched: map<Key, ModelObject>, dicts: seq<RefDict>)
    returns (result: seq<Option<ModelObject>>)
    requires Injective(fetched)
    requires forall key :: key in fetched ==> fetched[key].originalDict.None?
    modifies set key | key in fetched :: fetched[key]
    ensures |result| == |dicts|
    ensures forall j :: 0 <= j < |dicts| ==>
      result[j] == (if DictKey(dicts[j]) in fetched then Some(fetched[DictKey(dicts[j])]) else None)
    ensures forall key :: key in fetched ==> fetched[key].originalDict == LastDict(dicts, key)
  {
    result := [];
    for i := 0 to |dicts|
      invariant |result| == i
      invariant forall j :: 0 <= j < i ==>
        result[j] == (if DictKey(dicts[j]) in fetched then Some(fetched[DictKey(dicts[j])]) else None)
      invariant forall key :: key in fetched ==> fetched[key].originalDict == LastDict(dicts[..i], key)
    {
      var d := dicts[i];
      var key := DictKey(d);
      assert dicts[..i + 1][..i] == dicts[..i];
      if key in fetched {
        var item := fetched[key];
        item.originalDict := Some(d);
        result := result + [Some(item)];
      } else {
        result := result + [None];
      }
    }
    assert dicts[..|dicts|] == dicts;
  }

  /** `load_mixed_objects(dicts)`: the objects returned are new, one per
      distinct key found, and hold exactly the values `LoadMixed` gives. */
  method LoadMixedObjects(db: Store, dicts: seq<RefDict>) returns (result: seq<Option<ModelObject>>)
    requires db.Valid()
    ensures View(result) == LoadMixed(db, dicts)
    ensures forall o :: o in Objects(result) ==> fresh(o)
    ensures forall i, j :: 0 <= i < |result| && 0 <= j < |result| && result[i].Some? && result[j].Some? ==>
      (result[i].value == result[j].value <==> DictKey(dicts[i]) == DictKey(dicts[j]))
  {
    var toFetch := GroupByType(dicts);
    var fetched := FetchAll(db, dicts, toFetch);
    result := AttachDicts(fetched, dicts);
    SlotsMatch(db, dicts, fetched, result);
  }

  /** Once every reference has its object, or none when no record has its
      key, and every object holds its record and its last reference, the
      objects hold what `LoadMixed` gives. */
  lemma SlotsMatch(db: Store, dicts: seq<RefDict>, fetched: map<Key, ModelObject>,
                   result: seq<Option<ModelObject>>)
    requires forall key :: key in fetched <==>
      IsTypeName(key.typeName) && key.pk in Wanted(dicts, |dicts|, key.typeName) && Lookup(db, key).Some?
    requires forall key :: key in fetched ==> Some(fetched[key].record) == Lookup(db, key)
    requires forall key :: key in fetched ==> fetched[key].originalDict == LastDict(dicts, key)
    requires |result| == |dicts|
    requires forall j :: 0 <= j < |dicts| ==>
      result[j] == (if DictKey(dicts[j]) in fetched then Some(fetched[DictKey(dicts[j])]) else None)
    ensures View(result) == LoadMixed(db, dicts)
  {
    var v, w := View(result), LoadMixed(db, dicts);
    forall i | 0 <= i < |dicts|
      ensures v[i] == w[i]
    {
      var key := DictKey(dicts[i]);
      WantedHas(dicts, i);
      SlotMatches(db, dicts, key, if key in fetched then Some(fetched[key]) else None);
    }
  }

  /** One slot: the object found for `key`, if any, holds what `LoadMixed`
      gives for a reference with that key. */
  lemma SlotMatches(db: Store, dicts: seq<RefDict>, key: Key, slot: Option<ModelObject>)
    requires IsTypeName(key.typeName) ==> key.pk in Wanted(dicts, |dicts|, key.typeName)
    requires slot.Some? <==>
      IsTypeName(key.typeName) && key.pk in Wanted(dicts, |dicts|, key.typeName) && Lookup(db, key).Some?
    requires slot.Some? ==> Some(slot.value.record) == Lookup(db, key)
    requires slot.Some? ==> slot.value.originalDict == LastDict(dicts, key)
    ensures (match slot case None => None case Some(o) => Some(Loaded(o.record, o.originalDict)))
         == (match Lookup(db, key) case None => None case Some(x) => Some(Loaded(x, LastDict(dicts, key))))
  {
  }

  /** Every reference's pk is wanted for its type. */
  lemma WantedHas(dicts: seq<RefDict>, i: nat)
    requires i < |dicts|
    ensures dicts[i].pk in Wanted(dicts, |dicts|, dicts[i].typeName)
  {
  }
}
