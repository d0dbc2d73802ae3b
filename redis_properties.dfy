/** What the Redis-backed collection guarantees, and what it does not: identifiers, the
    refusal of existing models, the sets and hashes `_add` writes, what `_get` returns, and
    the index sets `_update` and `_remove` leave stale. */
module RedisProperties {
  import opened Wrappers
  import opened RedisStore
  import opened RedisCollection

  // ---------------------------------------------------------------- keys

  /** Two index sets share a key only for the same index and value, as long as index names
      contain no colon. */
  lemma IndexKeyInjective(prefix: string, i: string, v: string, j: string, w: string)
    requires ':' !in i && ':' !in j
    requires IndexKey(prefix, i, v) == IndexKey(prefix, j, w)
    ensures i == j && v == w
  {
    var s, t := i + ":" + v, j + ":" + w;
    assert s == IndexKey(prefix, i, v)[|prefix| + 1..];
    assert t == IndexKey(prefix, j, w)[|prefix| + 1..];
    FirstColon(i, v);
    FirstColon(j, w);
    assert i == s[..|i|] && j == t[..|j|];
    assert v == s[|i| + 1..] && w == t[|j| + 1..];
  }

  /** In `index:value`, the first colon is the one after the index, when the index has none. */
  lemma FirstColon(index: string, value: string)
    requires ':' !in index
    ensures var s := index + ":" + value;
            s[|index|] == ':' && forall k :: 0 <= k < |index| ==> s[k] != ':'
  {
    var s := index + ":" + value;
    forall k | 0 <= k < |index| ensures s[k] != ':' {
      assert s[k] == index[k];
    }
  }

  // ---------------------------------------------------------------- _extract

  /** `_extract` on one more identifier. */
  lemma ExtractSnoc(st: Store, prefix: string, ids: seq<string>, x: string)
    ensures Extract(st, prefix, ids + [x]) ==
              Extract(st, prefix, ids) + if Present(st, prefix, x) then [Model(st, prefix, x)] else []
  {
    assert (ids + [x])[..|ids|] == ids;
  }

  /** `_extract` keeps the order of the identifiers it is given. */
  lemma {:induction false} ExtractKeepsOrder(st: Store, prefix: string, a: seq<string>, b: seq<string>)
    ensures Extract(st, prefix, a + b) == Extract(st, prefix, a) + Extract(st, prefix, b)
    decreases |b|
  {
    if b == [] {
      assert a + b == a;
    } else {
      var init, last := b[..|b| - 1], b[|b| - 1];
      assert b == init + [last];
      assert a + b == (a + init) + [last];
      ExtractKeepsOrder(st, prefix, a, init);
      ExtractSnoc(st, prefix, a + init, last);
      ExtractSnoc(st, prefix, init, last);
      ConcatAssociates(Extract(st, prefix, a), Extract(st, prefix, init),
                       if Present(st, prefix, last) then [Model(st, prefix, last)] else []);
    }
  }

  lemma ConcatAssociates<T>(a: seq<T>, b: seq<T>, c: seq<T>)
    ensures (a + b) + c == a + (b + c)
  {
  }

  /** `_extract` returns exactly the stored models of the identifiers it is given, each
      with its identifier mixed in. */
  lemma ExtractMembers(st: Store, prefix: string, ids: seq<string>)
    ensures forall m :: m in Extract(st, prefix, ids) <==>
              exists x :: x in ids && Present(st, prefix, x) && m == Model(st, prefix, x)
  {
    var r, f := Extract(st, prefix, ids), Found(st, prefix, ids);
    forall m ensures m in r <==> exists x :: x in ids && Present(st, prefix, x) && m == Model(st, prefix, x) {
      if m in r {
        var k :| 0 <= k < |r| && r[k] == m;
        assert f[k] in f;
      }
      if exists x :: x in ids && Present(st, prefix, x) && m == Model(st, prefix, x) {
        var x :| x in ids && Present(st, prefix, x) && m == Model(st, prefix, x);
        assert x in f;
        var k :| 0 <= k < |f| && f[k] == x;
        assert r[k] == m;
      }
    }
  }

  // ---------------------------------------------------------------- _get

  /** A model has every property of the query, with its value. */
  predicate Matches(m: Props, q: Query) {
    forall p :: p in q ==> p.0 in m && m[p.0] == p.1
  }

  /** The keys of an object are distinct. */
  predicate KeysDistinct(q: Query) {
    forall j, k :: 0 <= j < k < |q| ==> q[j].0 != q[k].0
  }

  /** Every stored model listed in an index set has that value for that index: no index
      set is stale. */
  ghost predicate Agree(st: Store, cfg: Config) {
    forall i, v, x :: i in cfg.indexes && x in Members(st, IndexKey(cfg.prefix, i, v)) && Present(st, cfg.prefix, x)
      ==> i in Model(st, cfg.prefix, x) && Model(st, cfg.prefix, x)[i] == v
  }

  /** Every stored model is listed in the index set of each index it has a value for. */
  ghost predicate Cover(st: Store, cfg: Config) {
    forall i, x :: i in cfg.indexes && Present(st, cfg.prefix, x) && i in Model(st, cfg.prefix, x)
      ==> x in Members(st, IndexKey(cfg.prefix, i, Model(st, cfg.prefix, x)[i]))
  }

  /** With no properties, `_get` returns the stored model of every identifier in
      `prefix_ids`, and nothing else. */
  lemma GetEverything(cfg: Config, st: Store)
    ensures Get(cfg, st, []).Ok?
    ensures forall m :: m in Get(cfg, st, []).value <==>
              exists x :: x in Members(st, IdsKey(cfg.prefix)) && Present(st, cfg.prefix, x) && m == Model(st, cfg.prefix, x)
  {
    ExtractMembers(st, cfg.prefix, Members(st, IdsKey(cfg.prefix)));
  }

  /** With only `id`, `_get` returns that model when it is stored, whatever `prefix_ids`
      and the indexes say, and nothing otherwise. */
  lemma GetById(cfg: Config, st: Store, x: string)
    ensures Get(cfg, st, [(ID, x)]) == Ok(if Present(st, cfg.prefix, x) then [Model(st, cfg.prefix, x)] else [])
  {
    var q := [(ID, x)];
    assert WithoutId(q) == [];
    assert IdOf(q) == Some(x);
    assert Get(cfg, st, q) == Ok(Extract(st, cfg.prefix, [x]));
    ExtractSnoc(st, cfg.prefix, [], x);
    assert [] + [x] == [x];
    assert Extract(st, cfg.prefix, []) == [];
    assert Extract(st, cfg.prefix, [x]) == if Present(st, cfg.prefix, x) then [Model(st, cfg.prefix, x)] else [];
  }

  /** Whatever `_get` returns is a stored model. */
  lemma GetReturnsStored(cfg: Config, st: Store, q: Query)
    requires Get(cfg, st, q).Ok?
    ensures forall m :: m in Get(cfg, st, q).value ==>
              Present(st, cfg.prefix, m[ID]) && m == Model(st, cfg.prefix, m[ID])
  {
    var p := cfg.prefix;
    if q == [] {
      ExtractMembers(st, p, Members(st, IdsKey(p)));
    } else {
      var id, rest := IdOf(q), WithoutId(q);
      if rest == [] {
        ExtractMembers(st, p, [id.value]);
      } else {
        var ids := SInter(st, IndexKeys(p, rest));
        ExtractMembers(st, p, ids);
        if id.Some? {
          ExtractMembers(st, p, [id.value]);
        }
      }
    }
  }

  /** The identifier found in every index set named by `rest`. */
  lemma InEveryIndexSet(st: Store, prefix: string, rest: Query, x: string, p: (string, string))
    requires rest != [] && x in SInter(st, IndexKeys(prefix, rest)) && p in rest
    ensures x in Members(st, IndexKey(prefix, p.0, p.1))
  {
    var k :| 0 <= k < |rest| && rest[k] == p;
    assert IndexKeys(prefix, rest)[k] == IndexKey(prefix, p.0, p.1);
  }

  /** A key of `rest` that passed the check is a configured index. */
  lemma CheckedIsIndex(rest: Query, indexes: seq<string>, p: (string, string))
    requires Unfit(rest, indexes) == [] && p in rest
    ensures p.0 in indexes
  {
    assert (p.0, p.1) in rest;
  }

  /** When no index set is stale, every model `_get` returns has all the queried values. */
  lemma GetSound(cfg: Config, st: Store, q: Query)
    requires KeysDistinct(q) && Agree(st, cfg)
    requires Get(cfg, st, q).Ok?
    ensures forall m :: m in Get(cfg, st, q).value ==> Matches(m, q)
  {
    var p := cfg.prefix;
    GetReturnsStored(cfg, st, q);
    forall m | m in Get(cfg, st, q).value ensures Matches(m, q) {
      var x := m[ID];
      if q != [] {
        var id, rest := IdOf(q), WithoutId(q);
        if rest == [] {
          ExtractMembers(st, p, [id.value]);
          assert x == id.value;
        } else {
          var ids := SInter(st, IndexKeys(p, rest));
          if id.Some? {
            ExtractMembers(st, p, [id.value]);
            assert x == id.value && x in ids;
          } else {
            ExtractMembers(st, p, ids);
            assert x in ids;
          }
        }
        forall pr | pr in q ensures pr.0 in m && m[pr.0] == pr.1 {
          var k :| 0 <= k < |q| && q[k] == pr;
          if pr.0 == ID {
            var j :| 0 <= j < |q| && q[j] == (ID, id.value);
            assert j == k;
          } else {
            assert pr in rest;
            CheckedIsIndex(rest, cfg.indexes, pr);
            InEveryIndexSet(st, p, rest, x, pr);
          }
        }
      }
    }
  }

  /** When every stored model is listed under its indexed values, a query on indexes
      returns every stored model that has all the queried values. */
  lemma GetComplete(cfg: Config, st: Store, q: Query, x: string)
    requires Cover(st, cfg) && WithoutId(q) != [] && Get(cfg, st, q).Ok?
    requires Present(st, cfg.prefix, x) && Matches(Model(st, cfg.prefix, x), q)
    ensures Model(st, cfg.prefix, x) in Get(cfg, st, q).value
  {
    var p := cfg.prefix;
    var m := Model(st, p, x);
    var id, rest := IdOf(q), WithoutId(q);
    var keys := IndexKeys(p, rest);
    forall k | k in keys ensures x in Members(st, k) {
      var j :| 0 <= j < |keys| && keys[j] == k;
      assert rest[j] in q;
      CheckedIsIndex(rest, cfg.indexes, rest[j]);
    }
    var ids := SInter(st, keys);
    assert x in ids;
    if id.Some? {
      assert m[ID] == id.value;
      ExtractMembers(st, p, [x]);
    } else {
      ExtractMembers(st, p, ids);
    }
  }

  // ---------------------------------------------------------------- _add

  /** A model without `id` takes the counter's next value, one more than the last one
      drawn; a model with one keeps it and the counter is not touched. */
  lemma AddOneNumbers(st: Store, cfg: Config, model: Props, replace: bool)
    ensures var a := AddOne(st, cfg, model, replace);
            && ID in a.model
            && (ID !in model ==> a.model[ID] == Decimal(Counter(st, CounterKey(cfg.prefix)) + 1)
                                 && Counter(a.db, CounterKey(cfg.prefix)) == Counter(st, CounterKey(cfg.prefix)) + 1)
            && (ID in model ==> a.model == model && Counter(a.db, CounterKey(cfg.prefix)) == Counter(st, CounterKey(cfg.prefix)))
  {
    if ID in model {
      OwnIdKept(st, cfg, model, replace);
    } else {
      NextIdDrawn(st, cfg, model, replace);
    }
  }

  /** AddOneNumbers for a model without `id`. */
  lemma NextIdDrawn(st: Store, cfg: Config, model: Props, replace: bool)
    requires ID !in model
    ensures var a := AddOne(st, cfg, model, replace);
            && ID in a.model && a.model[ID] == Decimal(Counter(st, CounterKey(cfg.prefix)) + 1)
            && Counter(a.db, CounterKey(cfg.prefix)) == Counter(st, CounterKey(cfg.prefix)) + 1
  {
  }

  /** AddOneNumbers for a model with `id`. */
  lemma OwnIdKept(st: Store, cfg: Config, model: Props, replace: bool)
    requires ID in model
    ensures var a := AddOne(st, cfg, model, replace);
            a.model == model && Counter(a.db, CounterKey(cfg.prefix)) == Counter(st, CounterKey(cfg.prefix))
  {
    assert model[ID := model[ID]] == model;
  }

  /** A refused model changes no set and no hash; only the counter may have moved. */
  lemma RefusedAddWritesNothing(st: Store, cfg: Config, model: Props)
    requires IdFor(st, cfg.prefix, model) in Members(st, IdsKey(cfg.prefix))
    ensures var a := AddOne(st, cfg, model, false);
            a.failure == Some(ExistingModel(IdFor(st, cfg.prefix, model))) && a.db.sets == st.sets && a.db.hashes == st.hashes
  {
  }

  /** The chain of an accepted model: numbered, listed in `prefix_ids`, then written. */
  lemma AddOneAccepted(st: Store, cfg: Config, model: Props, replace: bool)
    requires IdFor(st, cfg.prefix, model) !in Members(st, IdsKey(cfg.prefix)) || replace
    ensures var a := AddOne(st, cfg, model, replace);
            var listed := SAdd(Number(st, cfg.prefix, model).1, IdsKey(cfg.prefix), a.model[ID]).1;
            (a.failure, a.db) == Write(listed, cfg, a.model)
  {
  }

  /** An accepted model's properties but `id` are merged into its hash. */
  lemma AddOneStoresHash(st: Store, cfg: Config, model: Props, replace: bool)
    requires IdFor(st, cfg.prefix, model) !in Members(st, IdsKey(cfg.prefix)) || replace
    ensures var id := IdFor(st, cfg.prefix, model);
            Fields(AddOne(st, cfg, model, replace).db, HashKey(cfg.prefix, id)) ==
              Fields(st, HashKey(cfg.prefix, id)) + (model - {ID})
  {
    var a := AddOne(st, cfg, model, replace);
    AddOneAccepted(st, cfg, model, replace);
    var numbered := Number(st, cfg.prefix, model).1;
    var listed := SAdd(numbered, IdsKey(cfg.prefix), a.model[ID]).1;
    StoredThenWritten(st, numbered, listed, cfg, model, a.model[ID]);
  }

  /** The hash of a model after SADD to `prefix_ids` and its writes, from a store with the
      hashes of `st`. */
  lemma StoredThenWritten(st: Store, numbered: Store, listed: Store, cfg: Config, model: Props, id: string)
    requires numbered.hashes == st.hashes
    requires listed == SAdd(numbered, IdsKey(cfg.prefix), id).1
    ensures Fields(Write(listed, cfg, model[ID := id]).1, HashKey(cfg.prefix, id)) ==
              Fields(st, HashKey(cfg.prefix, id)) + (model - {ID})
  {
    assert listed.hashes == st.hashes;
    WrittenHash(st, listed, cfg, model, id);
  }

  /** The hash of a model after its writes, from a store with the hashes of `st`. */
  lemma WrittenHash(st: Store, listed: Store, cfg: Config, model: Props, id: string)
    requires listed.hashes == st.hashes
    ensures Fields(Write(listed, cfg, model[ID := id]).1, HashKey(cfg.prefix, id)) ==
              Fields(st, HashKey(cfg.prefix, id)) + (model - {ID})
  {
    var hk := HashKey(cfg.prefix, id);
    var w := Write(listed, cfg, model[ID := id]);
    MergeOrNothing(Fields(st, hk), model, id, Fields(w.1, hk), w.0.Some?);
  }

  /** HMSET of a model's properties but `id`, refused when there are none, merges them. */
  lemma MergeOrNothing(fields: map<string, string>, model: Props, id: string, merged: map<string, string>, refused: bool)
    requires refused <==> model[ID := id].Keys <= {ID}
    requires merged == if refused then fields else fields + (model[ID := id] - {ID})
    ensures merged == fields + (model - {ID})
  {
    FieldsButId(model, id);
    if refused {
      NothingToMerge(model[ID := id], fields);
    }
  }

  /** Setting `id` does not change what is left once `id` is taken out. */
  lemma FieldsButId(model: Props, id: string)
    ensures model[ID := id] - {ID} == model - {ID}
  {
  }

  /** A model with no key but `id` merges nothing into a hash. */
  lemma NothingToMerge(model: Props, fields: map<string, string>)
    requires model.Keys <= {ID}
    ensures fields + (model - {ID}) == fields
  {
    assert model - {ID} == map[];
  }

  /** An accepted model leaves every other hash alone. */
  lemma AddOneKeepsOtherHash(st: Store, cfg: Config, model: Props, replace: bool, k: string)
    requires IdFor(st, cfg.prefix, model) !in Members(st, IdsKey(cfg.prefix)) || replace
    requires k != HashKey(cfg.prefix, IdFor(st, cfg.prefix, model))
    ensures Fields(AddOne(st, cfg, model, replace).db, k) == Fields(st, k)
  {
    var a := AddOne(st, cfg, model, replace);
    AddOneAccepted(st, cfg, model, replace);
    var numbered := Number(st, cfg.prefix, model).1;
    var listed := SAdd(numbered, IdsKey(cfg.prefix), a.model[ID]).1;
    OtherThenWritten(st, numbered, listed, cfg, a.model, k);
  }

  /** Any other hash after SADD to `prefix_ids` and the writes of a model, from a store with
      the hashes of `st`. */
  lemma OtherThenWritten(st: Store, numbered: Store, listed: Store, cfg: Config, m: Props, k: string)
    requires ID in m && numbered.hashes == st.hashes && k != HashKey(cfg.prefix, m[ID])
    requires listed == SAdd(numbered, IdsKey(cfg.prefix), m[ID]).1
    ensures Fields(Write(listed, cfg, m).1, k) == Fields(st, k)
  {
    assert Fields(listed, k) == Fields(st, k);
  }

  /** An accepted model's identifier joins `prefix_ids` and the index set of each
      configured index it has, and no other set. */
  lemma AddOneListsId(st: Store, cfg: Config, model: Props, replace: bool, k: string, x: string)
    requires IdFor(st, cfg.prefix, model) !in Members(st, IdsKey(cfg.prefix)) || replace
    ensures var a := AddOne(st, cfg, model, replace);
            x in Members(a.db, k) <==>
              x in Members(st, k) || (x == a.model[ID] && (k == IdsKey(cfg.prefix) || k in IndexKeysOf(cfg.prefix, cfg.indexes, a.model)))
  {
    var a := AddOne(st, cfg, model, replace);
    AddOneAccepted(st, cfg, model, replace);
    var numbered := Number(st, cfg.prefix, model).1;
    var listed := SAdd(numbered, IdsKey(cfg.prefix), a.model[ID]).1;
    ListedThenWritten(st, numbered, listed, a.db, cfg, a.model, k, x);
  }

  /** The sets after SADD to `prefix_ids` and the writes of a model, from a store with the
      sets of `st`. */
  lemma ListedThenWritten(st: Store, numbered: Store, listed: Store, after: Store, cfg: Config, m: Props,
                          k: string, x: string)
    requires ID in m && numbered.sets == st.sets
    requires listed == SAdd(numbered, IdsKey(cfg.prefix), m[ID]).1
    requires after == Write(listed, cfg, m).1
    ensures x in Members(after, k) <==>
              x in Members(st, k) || (x == m[ID] && (k == IdsKey(cfg.prefix) || k in IndexKeysOf(cfg.prefix, cfg.indexes, m)))
  {
    ListedOnly(st, numbered, listed, IdsKey(cfg.prefix), m[ID], k, x);
    WrittenSets(listed, after, cfg, m, k, x);
  }

  /** SADD of `id` to `key`, from a store with the sets of `st`. */
  lemma ListedOnly(st: Store, numbered: Store, listed: Store, key: string, id: string, k: string, x: string)
    requires numbered.sets == st.sets && listed == SAdd(numbered, key, id).1
    ensures x in Members(listed, k) <==> x in Members(st, k) || (x == id && k == key)
  {
    assert Members(numbered, k) == Members(st, k);
  }

  /** The writes of a model add its identifier to its index sets only. */
  lemma WrittenSets(listed: Store, after: Store, cfg: Config, m: Props, k: string, x: string)
    requires ID in m && after == Write(listed, cfg, m).1
    ensures x in Members(after, k) <==>
              x in Members(listed, k) || (x == m[ID] && k in IndexKeysOf(cfg.prefix, cfg.indexes, m))
  {
  }

  /** Adding a model with an identifier that has no hash, in replace mode or not listed
      yet, and reading it back by `id` gives the model as `_add` returned it. */
  lemma AddThenGetById(st: Store, cfg: Config, model: Props, replace: bool)
    requires IdFor(st, cfg.prefix, model) !in Members(st, IdsKey(cfg.prefix)) || replace
    requires !Present(st, cfg.prefix, IdFor(st, cfg.prefix, model))
    requires !(model.Keys <= {ID})
    ensures var a := AddOne(st, cfg, model, replace);
            a.failure.None? && Get(cfg, a.db, [(ID, a.model[ID])]) == Ok([a.model])
  {
    var a := AddOne(st, cfg, model, replace);
    var id := IdFor(st, cfg.prefix, model);
    AddOneStoresHash(st, cfg, model, replace);
    FreshHash(Fields(st, HashKey(cfg.prefix, id)), model, id);
    GetById(cfg, a.db, id);
  }

  /** Merging a model into an empty hash and mixing its identifier back in gives the model
      with that identifier; the hash is not empty when the model has another key. */
  lemma FreshHash(fields: map<string, string>, model: Props, id: string)
    requires |fields| == 0
    ensures (fields + (model - {ID}))[ID := id] == model[ID := id]
    ensures !(model.Keys <= {ID}) ==> |fields + (model - {ID})| > 0
  {
    if !(model.Keys <= {ID}) {
      var f :| f in model && f != ID;
      assert f in fields + (model - {ID});
    }
  }

  /** `_update` merges into the stored model: the new properties overwrite the stored
      ones, the others stay. */
  lemma UpdateMerges(st: Store, cfg: Config, model: Props, f: string)
    requires ID in model && f != ID
    requires f in Fields(st, HashKey(cfg.prefix, model[ID])) || f in model
    ensures var stored := Model(AddOne(st, cfg, model, true).db, cfg.prefix, model[ID]);
            f in stored && stored[f] == if f in model then model[f] else Fields(st, HashKey(cfg.prefix, model[ID]))[f]
  {
    AddOneStoresHash(st, cfg, model, true);
    MergedField(Fields(st, HashKey(cfg.prefix, model[ID])), model, model[ID], f);
  }

  /** A property other than `id` of a hash merged with a model. */
  lemma MergedField(fields: map<string, string>, model: Props, id: string, f: string)
    requires f != ID && (f in fields || f in model)
    ensures var m := (fields + (model - {ID}))[ID := id];
            f in m && m[f] == if f in model then model[f] else fields[f]
  {
  }

  /** The models of a batch carry the identifiers drawn from the counter one after the
      other, starting with its value in `st` plus one, and the counter has moved by as many. */
  ghost predicate NumberedFrom(st: Store, prefix: string, b: Batch) {
    var c := Counter(st, CounterKey(prefix));
    && Counter(b.db, CounterKey(prefix)) == c + |b.models|
    && forall k :: 0 <= k < |b.models| ==> ID in b.models[k] && b.models[k][ID] == Decimal(c + k + 1)
  }

  /** Models without `id` in one `_add` are numbered one after the other from the
      counter's next value. */
  lemma {:induction false} AddAllNumbers(st: Store, cfg: Config, models: seq<Props>, replace: bool)
    requires forall k :: 0 <= k < |models| ==> ID !in models[k]
    ensures NumberedFrom(st, cfg.prefix, AddAll(st, cfg, models, replace))
    decreases |models|
  {
    if models != [] {
      var n := |models| - 1;
      assert forall k :: 0 <= k < n ==> models[..n][k] == models[k];
      AddAllNumbers(st, cfg, models[..n], replace);
      AddAllNumbersStep(st, cfg, models, replace);
    }
  }

  /** One more model without `id` after a consecutively numbered batch. */
  lemma AddAllNumbersStep(st: Store, cfg: Config, models: seq<Props>, replace: bool)
    requires models != [] && ID !in models[|models| - 1]
    requires NumberedFrom(st, cfg.prefix, AddAll(st, cfg, models[..|models| - 1], replace))
    ensures NumberedFrom(st, cfg.prefix, AddAll(st, cfg, models, replace))
  {
    var n := |models| - 1;
    var b := AddAll(st, cfg, models[..n], replace);
    var a := AddOne(b.db, cfg, models[n], replace);
    AddOneNumbers(b.db, cfg, models[n], replace);
    NumberedNext(st, cfg.prefix, b, a.model, a.db, if b.failure.Some? then b.failure else a.failure);
  }

  /** The step of AddAllNumbers: a batch extended by a model that took the next value. */
  lemma NumberedNext(st: Store, prefix: string, b: Batch, model: Props, db: Store, failure: Option<Failure>)
    requires NumberedFrom(st, prefix, b)
    requires ID in model && model[ID] == Decimal(Counter(b.db, CounterKey(prefix)) + 1)
    requires Counter(db, CounterKey(prefix)) == Counter(b.db, CounterKey(prefix)) + 1
    ensures NumberedFrom(st, prefix, Batch(b.models + [model], failure, db))
  {
    NumberedInTurn(Counter(st, CounterKey(prefix)), b.models, model);
  }

  /** One more model numbered with the next value keeps the numbering consecutive. */
  lemma NumberedInTurn(c: nat, done: seq<Props>, model: Props)
    requires forall k :: 0 <= k < |done| ==> ID in done[k] && done[k][ID] == Decimal(c + k + 1)
    requires ID in model && model[ID] == Decimal(c + |done| + 1)
    ensures forall k :: 0 <= k < |done| + 1 ==>
              ID in (done + [model])[k] && (done + [model])[k][ID] == Decimal(c + k + 1)
  {
  }

  /** Hence the identifiers drawn in one `_add` are all different. */
  lemma AddAllIdsDistinct(st: Store, cfg: Config, models: seq<Props>, replace: bool, j: nat, k: nat)
    requires forall n :: 0 <= n < |models| ==> ID !in models[n]
    requires j < k < |models|
    ensures var b := AddAll(st, cfg, models, replace);
            ID in b.models[j] && ID in b.models[k] && b.models[j][ID] != b.models[k][ID]
  {
    AddAllNumbers(st, cfg, models, replace);
    NumberedDistinct(st, cfg.prefix, AddAll(st, cfg, models, replace), j, k);
  }

  /** Consecutive numbering never repeats an identifier. */
  lemma NumberedDistinct(st: Store, prefix: string, b: Batch, j: nat, k: nat)
    requires NumberedFrom(st, prefix, b) && j < k < |b.models|
    ensures ID in b.models[j] && ID in b.models[k] && b.models[j][ID] != b.models[k][ID]
  {
    var c := Counter(st, CounterKey(prefix));
    assert b.models[j][ID] == Decimal(c + j + 1) && b.models[k][ID] == Decimal(c + k + 1);
    DistinctDecimals(c + j + 1, c + k + 1);
  }

  /** Different counter values never give the same identifier. */
  lemma DistinctDecimals(x: nat, y: nat)
    requires x != y
    ensures Decimal(x) != Decimal(y)
  {
    if Decimal(x) == Decimal(y) {
      DecimalInjective(x, y);
    }
  }

  /** What each model's chain in a batch rejects with, if anything, in the order of the
      models. */
  function Failures(st: Store, cfg: Config, models: seq<Props>, replace: bool): (r: seq<Option<Failure>>)
    ensures |r| == |models|
  {
    if models == [] then []
    else
      var init := models[..|models| - 1];
      Failures(st, cfg, init, replace) + [AddOne(AddAll(st, cfg, init, replace).db, cfg, models[|models| - 1], replace).failure]
  }

  /** The failure of a batch is one of its models' failures, and there is one exactly when
      some model failed. */
  ghost predicate FailsWithOneOf(failure: Option<Failure>, failures: seq<Option<Failure>>) {
    && (failure.None? <==> forall f :: f in failures ==> f.None?)
    && (failure.Some? ==> failure in failures)
  }

  /** `_add` rejects exactly when one of the models' chains does, with one of their
      failures. */
  lemma {:induction false} AddAllFails(st: Store, cfg: Config, models: seq<Props>, replace: bool)
    ensures FailsWithOneOf(AddAll(st, cfg, models, replace).failure, Failures(st, cfg, models, replace))
    decreases |models|
  {
    if models != [] {
      var n := |models| - 1;
      AddAllFails(st, cfg, models[..n], replace);
      AddAllFailsStep(st, cfg, models, replace);
    }
  }

  /** One more model after a batch whose failure is one of its models' failures. */
  lemma AddAllFailsStep(st: Store, cfg: Config, models: seq<Props>, replace: bool)
    requires models != []
    requires var init := models[..|models| - 1];
             FailsWithOneOf(AddAll(st, cfg, init, replace).failure, Failures(st, cfg, init, replace))
    ensures FailsWithOneOf(AddAll(st, cfg, models, replace).failure, Failures(st, cfg, models, replace))
  {
    var n := |models| - 1;
    var b := AddAll(st, cfg, models[..n], replace);
    var a := AddOne(b.db, cfg, models[n], replace);
    FailsNext(b.failure, Failures(st, cfg, models[..n], replace), a.failure);
  }

  /** The step of AddAllFails: the batch keeps its failure, or takes the new model's. */
  lemma FailsNext(failure: Option<Failure>, failures: seq<Option<Failure>>, f: Option<Failure>)
    requires FailsWithOneOf(failure, failures)
    ensures FailsWithOneOf(if failure.Some? then failure else f, failures + [f])
  {
  }

  /** Index sets only gain members: whatever `_add` does keeps every stored model listed
      under its indexed values. */
  lemma AddOneKeepsCover(st: Store, cfg: Config, model: Props, replace: bool)
    requires Cover(st, cfg)
    ensures Cover(AddOne(st, cfg, model, replace).db, cfg)
  {
    var p := cfg.prefix;
    var a := AddOne(st, cfg, model, replace);
    var id := IdFor(st, p, model);
    if id in Members(st, IdsKey(p)) && !replace {
      RefusedAddWritesNothing(st, cfg, model);
      SameSetsAndHashes(st, a.db, cfg);
    } else {
      AddOneStoresHash(st, cfg, model, replace);
      forall k | k != HashKey(p, id) ensures Fields(a.db, k) == Fields(st, k) {
        AddOneKeepsOtherHash(st, cfg, model, replace, k);
      }
      forall k, x | x in Members(st, k) ensures x in Members(a.db, k) {
        AddOneListsId(st, cfg, model, replace, k, x);
      }
      forall k | k in IndexKeysOf(p, cfg.indexes, a.model) ensures id in Members(a.db, k) {
        AddOneListsId(st, cfg, model, replace, k, id);
      }
      WriteKeepsCover(st, a.db, cfg, a.model);
    }
  }

  /** A whole `_add` batch keeps Cover: each model's chain does, in turn. */
  lemma {:induction false} AddAllKeepsCover(st: Store, cfg: Config, models: seq<Props>, replace: bool)
    requires Cover(st, cfg)
    ensures Cover(AddAll(st, cfg, models, replace).db, cfg)
    decreases |models|
  {
    if models != [] {
      var init := models[..|models| - 1];
      AddAllKeepsCover(st, cfg, init, replace);
      AddOneKeepsCover(AddAll(st, cfg, init, replace).db, cfg, models[|models| - 1], replace);
    }
  }

  /** Both predicates read only the sets and the hashes. */
  lemma SameSetsAndHashes(st: Store, after: Store, cfg: Config)
    requires after.sets == st.sets && after.hashes == st.hashes
    ensures Cover(after, cfg) == Cover(st, cfg) && Agree(after, cfg) == Agree(st, cfg)
  {
    assert forall k :: Members(after, k) == Members(st, k) && Fields(after, k) == Fields(st, k);
    assert forall x :: Present(after, cfg.prefix, x) == Present(st, cfg.prefix, x);
    assert forall x :: Model(after, cfg.prefix, x) == Model(st, cfg.prefix, x);
  }

  /** A store that differs from a covered one by a model merged into its hash and listed in
      its index sets, with no set losing a member, is covered. */
  lemma WriteKeepsCover(st: Store, after: Store, cfg: Config, m: Props)
    requires Cover(st, cfg) && ID in m
    requires Fields(after, HashKey(cfg.prefix, m[ID])) == Fields(st, HashKey(cfg.prefix, m[ID])) + (m - {ID})
    requires forall k :: k != HashKey(cfg.prefix, m[ID]) ==> Fields(after, k) == Fields(st, k)
    requires forall k, x :: x in Members(st, k) ==> x in Members(after, k)
    requires forall k :: k in IndexKeysOf(cfg.prefix, cfg.indexes, m) ==> m[ID] in Members(after, k)
    ensures Cover(after, cfg)
  {
    var p, id := cfg.prefix, m[ID];
    forall i, y | i in cfg.indexes && Present(after, p, y) && i in Model(after, p, y)
      ensures y in Members(after, IndexKey(p, i, Model(after, p, y)[i]))
    {
      if y != id {
        OtherModelKept(st, after, p, id, y);
      } else {
        WrittenModelListed(st, after, cfg, m, i);
      }
    }
  }

  /** A model other than the one written reads as before. */
  lemma OtherModelKept(st: Store, after: Store, p: string, id: string, y: string)
    requires y != id
    requires forall k :: k != HashKey(p, id) ==> Fields(after, k) == Fields(st, k)
    ensures Present(after, p, y) == Present(st, p, y) && Model(after, p, y) == Model(st, p, y)
  {
    if HashKey(p, y) == HashKey(p, id) {
      HashKeyInjective(p, y, id);
    }
  }

  /** The written model is listed under each indexed value it has after the write. */
  lemma WrittenModelListed(st: Store, after: Store, cfg: Config, m: Props, i: string)
    requires Cover(st, cfg) && ID in m && i in cfg.indexes
    requires Fields(after, HashKey(cfg.prefix, m[ID])) == Fields(st, HashKey(cfg.prefix, m[ID])) + (m - {ID})
    requires forall k, x :: x in Members(st, k) ==> x in Members(after, k)
    requires forall k :: k in IndexKeysOf(cfg.prefix, cfg.indexes, m) ==> m[ID] in Members(after, k)
    requires i in Model(after, cfg.prefix, m[ID])
    ensures m[ID] in Members(after, IndexKey(cfg.prefix, i, Model(after, cfg.prefix, m[ID])[i]))
  {
    var p, id := cfg.prefix, m[ID];
    if i in m {
      assert Model(after, p, id)[i] == m[i];
      assert IndexKey(p, i, m[i]) in IndexKeysOf(p, cfg.indexes, m);
    } else {
      assert i != ID && i in Fields(st, HashKey(p, id));
      assert Present(st, p, id) && Model(st, p, id)[i] == Model(after, p, id)[i];
    }
  }

  /** An identifier that has no hash and is in no index set yet keeps every index set
      accurate when added, provided index names contain no colon. */
  lemma AddNewKeepsAgree(st: Store, cfg: Config, model: Props, replace: bool)
    requires Agree(st, cfg)
    requires forall i :: i in cfg.indexes ==> ':' !in i
    requires !Present(st, cfg.prefix, IdFor(st, cfg.prefix, model))
    requires forall i, v :: i in cfg.indexes ==> IdFor(st, cfg.prefix, model) !in Members(st, IndexKey(cfg.prefix, i, v))
    ensures Agree(AddOne(st, cfg, model, replace).db, cfg)
  {
    if IdFor(st, cfg.prefix, model) in Members(st, IdsKey(cfg.prefix)) && !replace {
      RefusedAddWritesNothing(st, cfg, model);
      SameSetsAndHashes(st, AddOne(st, cfg, model, replace).db, cfg);
    } else {
      AcceptedNewKeepsAgree(st, cfg, model, replace);
    }
  }

  /** AddNewKeepsAgree for an accepted model. */
  lemma AcceptedNewKeepsAgree(st: Store, cfg: Config, model: Props, replace: bool)
    requires Agree(st, cfg)
    requires forall i :: i in cfg.indexes ==> ':' !in i
    requires IdFor(st, cfg.prefix, model) !in Members(st, IdsKey(cfg.prefix)) || replace
    requires !Present(st, cfg.prefix, IdFor(st, cfg.prefix, model))
    requires forall i, v :: i in cfg.indexes ==> IdFor(st, cfg.prefix, model) !in Members(st, IndexKey(cfg.prefix, i, v))
    ensures Agree(AddOne(st, cfg, model, replace).db, cfg)
  {
    var a := AddOne(st, cfg, model, replace);
    assert a.model[ID] == IdFor(st, cfg.prefix, model);
    AddOneStoresHash(st, cfg, model, replace);
    AddOneKeepsOtherHashes(st, cfg, model, replace);
    AddOneListsOnlyId(st, cfg, model, replace);
    WriteKeepsAgree(st, a.db, cfg, a.model);
  }

  /** AddOneKeepsOtherHash for every other key. */
  lemma AddOneKeepsOtherHashes(st: Store, cfg: Config, model: Props, replace: bool)
    requires IdFor(st, cfg.prefix, model) !in Members(st, IdsKey(cfg.prefix)) || replace
    ensures var a := AddOne(st, cfg, model, replace);
            forall k :: k != HashKey(cfg.prefix, a.model[ID]) ==> Fields(a.db, k) == Fields(st, k)
  {
    forall k | k != HashKey(cfg.prefix, IdFor(st, cfg.prefix, model))
      ensures Fields(AddOne(st, cfg, model, replace).db, k) == Fields(st, k)
    {
      AddOneKeepsOtherHash(st, cfg, model, replace, k);
    }
  }

  /** AddOneListsId for the index sets: they gain the model's identifier only. */
  lemma AddOneListsOnlyId(st: Store, cfg: Config, model: Props, replace: bool)
    requires IdFor(st, cfg.prefix, model) !in Members(st, IdsKey(cfg.prefix)) || replace
    ensures var a := AddOne(st, cfg, model, replace);
            forall i, v, x :: i in cfg.indexes && x in Members(a.db, IndexKey(cfg.prefix, i, v)) ==>
              x in Members(st, IndexKey(cfg.prefix, i, v))
              || (x == a.model[ID] && IndexKey(cfg.prefix, i, v) in IndexKeysOf(cfg.prefix, cfg.indexes, a.model))
  {
    var p := cfg.prefix;
    var a := AddOne(st, cfg, model, replace);
    forall i, v, x | i in cfg.indexes && x in Members(a.db, IndexKey(p, i, v))
      ensures x in Members(st, IndexKey(p, i, v)) || (x == a.model[ID] && IndexKey(p, i, v) in IndexKeysOf(p, cfg.indexes, a.model))
    {
      IndexKeyIsNotIdsKey(p, i, v);
      AddOneListsId(st, cfg, model, replace, IndexKey(p, i, v), x);
    }
  }

  /** A store that differs from an accurate one by a new model written into an empty hash
      and listed in its index sets only is accurate, when index names contain no colon. */
  lemma WriteKeepsAgree(st: Store, after: Store, cfg: Config, m: Props)
    requires Agree(st, cfg) && ID in m
    requires forall i :: i in cfg.indexes ==> ':' !in i
    requires !Present(st, cfg.prefix, m[ID])
    requires forall i, v :: i in cfg.indexes ==> m[ID] !in Members(st, IndexKey(cfg.prefix, i, v))
    requires Fields(after, HashKey(cfg.prefix, m[ID])) == Fields(st, HashKey(cfg.prefix, m[ID])) + (m - {ID})
    requires forall k :: k != HashKey(cfg.prefix, m[ID]) ==> Fields(after, k) == Fields(st, k)
    requires forall i, v, x :: i in cfg.indexes && x in Members(after, IndexKey(cfg.prefix, i, v)) ==>
               x in Members(st, IndexKey(cfg.prefix, i, v)) || (x == m[ID] && IndexKey(cfg.prefix, i, v) in IndexKeysOf(cfg.prefix, cfg.indexes, m))
    ensures Agree(after, cfg)
  {
    var p, id := cfg.prefix, m[ID];
    forall i, v, y | i in cfg.indexes && y in Members(after, IndexKey(p, i, v)) && Present(after, p, y)
      ensures i in Model(after, p, y) && Model(after, p, y)[i] == v
    {
      if y != id {
        OtherModelKept(st, after, p, id, y);
      } else {
        WrittenModelAgrees(st, after, cfg, m, i, v);
      }
    }
  }

  /** The written model, listed under an indexed value, has that value. */
  lemma WrittenModelAgrees(st: Store, after: Store, cfg: Config, m: Props, i: string, v: string)
    requires ID in m && i in cfg.indexes
    requires forall j :: j in cfg.indexes ==> ':' !in j
    requires !Present(st, cfg.prefix, m[ID])
    requires m[ID] !in Members(st, IndexKey(cfg.prefix, i, v))
    requires Fields(after, HashKey(cfg.prefix, m[ID])) == Fields(st, HashKey(cfg.prefix, m[ID])) + (m - {ID})
    requires m[ID] in Members(after, IndexKey(cfg.prefix, i, v))
    requires forall x :: x in Members(after, IndexKey(cfg.prefix, i, v)) ==>
               x in Members(st, IndexKey(cfg.prefix, i, v)) || (x == m[ID] && IndexKey(cfg.prefix, i, v) in IndexKeysOf(cfg.prefix, cfg.indexes, m))
    ensures i in Model(after, cfg.prefix, m[ID]) && Model(after, cfg.prefix, m[ID])[i] == v
  {
    var p, id := cfg.prefix, m[ID];
    FreshHash(Fields(st, HashKey(p, id)), m, id);
    var j :| j in cfg.indexes && j in m && IndexKey(p, i, v) == IndexKey(p, j, m[j]);
    IndexKeyInjective(p, i, v, j, m[j]);
  }

  /** `_update` does not take a model out of the index set of its old value: a query on
      that value then returns the model, whose value is the new one. */
  lemma StaleIndexAfterUpdate(st: Store, cfg: Config, x: string, i: string, v1: string, v2: string)
    requires i in cfg.indexes && i != ID && v1 != v2
    requires Present(st, cfg.prefix, x) && i in Model(st, cfg.prefix, x) && Model(st, cfg.prefix, x)[i] == v1
    requires x in Members(st, IndexKey(cfg.prefix, i, v1))
    ensures var a := AddOne(st, cfg, map[ID := x, i := v2], true);
            var stored := Model(a.db, cfg.prefix, x);
            && a.failure.None?
            && Get(cfg, a.db, [(i, v1)]).Ok?
            && stored in Get(cfg, a.db, [(i, v1)]).value
            && stored[i] == v2
            && !Agree(a.db, cfg)
  {
    var p := cfg.prefix;
    var model := map[ID := x, i := v2];
    var a := AddOne(st, cfg, model, true);
    AddOneStoresHash(st, cfg, model, true);
    AddOneListsId(st, cfg, model, true, IndexKey(p, i, v1), x);
    assert i in model - {ID};
    assert Present(a.db, p, x) && Model(a.db, p, x)[i] == v2;
    ListedUnder(cfg, a.db, x, i, v1);
  }

  /** A stored model listed in the index set of `i` and `v` is returned by a query on that
      value, and an accurate index gives it that value. */
  lemma ListedUnder(cfg: Config, st: Store, x: string, i: string, v: string)
    requires i in cfg.indexes && i != ID
    requires Present(st, cfg.prefix, x) && x in Members(st, IndexKey(cfg.prefix, i, v))
    ensures Get(cfg, st, [(i, v)]).Ok? && Model(st, cfg.prefix, x) in Get(cfg, st, [(i, v)]).value
    ensures Agree(st, cfg) ==> i in Model(st, cfg.prefix, x) && Model(st, cfg.prefix, x)[i] == v
  {
    var p := cfg.prefix;
    var q := [(i, v)];
    assert WithoutId(q) == q && IdOf(q) == None;
    assert Unfit(q, cfg.indexes) == [];
    var ids := SInter(st, IndexKeys(p, q));
    assert IndexKeys(p, q) == [IndexKey(p, i, v)];
    assert x in ids;
    ExtractMembers(st, p, ids);
  }

  // ---------------------------------------------------------------- _remove

  /** After `_remove`, no query returns a removed model, although its identifier stays in
      the index sets. */
  lemma RemovedAreGone(cfg: Config, st: Store, ids: seq<string>, after: Store, q: Query, x: string)
    requires after == RemoveAll(st, cfg.prefix, ids).1
    requires x in ids && Get(cfg, after, q).Ok?
    ensures forall m :: m in Get(cfg, after, q).value ==> ID in m && m[ID] != x
  {
    AbsentNeverReturned(cfg, after, q, x);
  }

  /** Reading a removed model back by `id` gives nothing. */
  lemma RemoveThenGetById(cfg: Config, st: Store, ids: seq<string>, x: string)
    requires x in ids
    ensures Get(cfg, RemoveAll(st, cfg.prefix, ids).1, [(ID, x)]) == Ok([])
  {
    var after := RemoveAll(st, cfg.prefix, ids).1;
    assert !Present(after, cfg.prefix, x);
    GetById(cfg, after, x);
  }

  /** No query returns a model that has no hash. */
  lemma AbsentNeverReturned(cfg: Config, st: Store, q: Query, x: string)
    requires !Present(st, cfg.prefix, x) && Get(cfg, st, q).Ok?
    ensures forall m :: m in Get(cfg, st, q).value ==> ID in m && m[ID] != x
  {
    GetReturnsStored(cfg, st, q);
  }

  /** `_remove` keeps index sets accurate and complete: it only takes models away. */
  lemma RemoveKeepsIndexes(cfg: Config, st: Store, ids: seq<string>)
    ensures Agree(st, cfg) ==> Agree(RemoveAll(st, cfg.prefix, ids).1, cfg)
    ensures Cover(st, cfg) ==> Cover(RemoveAll(st, cfg.prefix, ids).1, cfg)
  {
    var after := RemoveAll(st, cfg.prefix, ids).1;
    forall i, v | i in cfg.indexes ensures Members(after, IndexKey(cfg.prefix, i, v)) == Members(st, IndexKey(cfg.prefix, i, v)) {
      IndexKeyIsNotIdsKey(cfg.prefix, i, v);
    }
  }
}
