/** The collection object of src/collection/redis.js: its configuration, fixed at
    construction, and the Redis server it sends commands to, which its methods change in
    place. Each method is proved to compute the function of RedisCollection that describes
    it. */
module RedisClient {
  import opened Wrappers
  import opened RedisStore
  import opened RedisCollection

  class Redis {
    const prefix: string
    const uri: string
    const indexes: seq<string>
    /** The server's keyspace, as far as this collection's keys go. */
    var db: Store

    function Settings(): Config {
      Config(prefix, uri, indexes)
    }

    constructor (cfg: Config, db: Store)
      ensures Settings() == cfg && this.db == db
    {
      prefix, uri, indexes := cfg.prefix, cfg.uri, cfg.indexes;
      this.db := db;
    }

    /** `new Redis(options)`: refused with 'missing option: prefix' when there is no
        prefix; otherwise a collection with the defaults filled in. */
    static method Create(options: Option<Options>, db: Store) returns (r: Result<Redis, Failure>)
      ensures r.Err? <==> Configure(options).Err?
      ensures r.Err? ==> r.error == MissingPrefix
      ensures r.Ok? ==> fresh(r.value) && r.value.Settings() == Configure(options).value && r.value.db == db
    {
      var cfg := Configure(options);
      if cfg.Err? {
        return Err(cfg.error);
      }
      var collection := new Redis(cfg.value, db);
      return Ok(collection);
    }

    /** `_extract(ids)`: one HGETALL per identifier, the empty hashes dropped. */
    method Extract(ids: seq<string>) returns (models: seq<Props>)
      ensures models == RedisCollection.Extract(db, prefix, ids)
    {
      models := [];
      var i := 0;
      while i < |ids|
        invariant 0 <= i <= |ids|
        invariant models == RedisCollection.Extract(db, prefix, ids[..i])
      {
        var model := Fields(db, HashKey(prefix, ids[i]));
        if |model| > 0 {
          models := models + [model[ID := ids[i]]];
        }
        assert ids[..i + 1][..i] == ids[..i];
        i := i + 1;
      }
      assert ids[..i] == ids;
    }

    /** `_get(properties)`. */
    method Get(q: Query) returns (r: Result<seq<Props>, Failure>)
      ensures r == RedisCollection.Get(Settings(), db, q)
    {
      if q == [] {
        var models := Extract(Members(db, IdsKey(prefix)));
        return Ok(models);
      }
      if WithoutId(q) == [] {
        var id := IdOf(q);
        assert q[0].0 == ID;
        var models := Extract([id.value]);
        return Ok(models);
      }
      r := GetIndexed(q);
    }

    /** The part of `_get` that reads index sets, for a query with a property other than
        `id`: every such property must be an index; the models are those in every index
        set, narrowed to `id` when it is given. */
    method GetIndexed(q: Query) returns (r: Result<seq<Props>, Failure>)
      requires WithoutId(q) != []
      ensures r == RedisCollection.Get(Settings(), db, q)
    {
      var id := IdOf(q);
      var rest := WithoutId(q);
      var unfit := Unfit(rest, indexes);
      if unfit != [] {
        return Err(NotIndexed(unfit));
      }
      var ids := SInter(db, IndexKeys(prefix, rest));
      if id.Some? {
        if id.value !in ids {
          return Ok([]);
        }
        ids := [id.value];
      }
      var models := Extract(ids);
      return Ok(models);
    }

    /** The SADDs of `id` to the index sets of a model, one per configured index it has. */
    method AddToIndexes(m: Props, id: string)
      modifies this
      ensures db == AddToSets(old(db), IndexKeysOf(prefix, indexes, m), id)
    {
      var j := 0;
      while j < |indexes|
        invariant 0 <= j <= |indexes|
        invariant db == AddToSets(old(db), IndexKeysOf(prefix, indexes[..j], m), id)
      {
        var index := indexes[j];
        AddToSetsStep(old(db), prefix, indexes, m, id, j);
        if index in m {
          db := SAdd(db, IndexKey(prefix, index, m[index]), id).1;
        }
        j := j + 1;
      }
      assert indexes[..j] == indexes;
    }

    /** The writes of one accepted model: HMSET of every property but `id`, then the
        SADDs to its index sets, sent whether HMSET succeeds or not. */
    method Write(m: Props) returns (failure: Option<Failure>)
      requires ID in m
      modifies this
      ensures (failure, db) == RedisCollection.Write(old(db), Settings(), m)
    {
      var stored := HMSet(db, HashKey(prefix, m[ID]), m - {ID});
      if stored.Ok? {
        db := stored.value;
      }
      AddToIndexes(m, m[ID]);
      failure := if stored.Err? then Some(Rejected(stored.error)) else None;
    }

    /** One model's promise chain in `_add`: INCR when it has no identifier (which is then
        written into the model), SADD to `prefix_ids`, the refusal of an existing model
        outside replace mode, then the writes. */
    method AddModel(models: array<Props>, i: nat, replace: bool) returns (failure: Option<Failure>)
      requires i < models.Length
      modifies this, models
      ensures var a := AddOne(old(db), Settings(), old(models[i]), replace);
              models[..] == old(models[..])[i := a.model] && failure == a.failure && db == a.db
    {
      var model := models[i];
      ghost var numbered := Number(db, prefix, model);
      if ID !in model {
        var incr := Incr(db, CounterKey(prefix));
        db := incr.1;
        models[i] := model[ID := Decimal(incr.0)];
      } else {
        assert model[ID := model[ID]] == model;
      }
      assert (models[i], db) == numbered;
      var id := models[i][ID];
      var listed := SAdd(db, IdsKey(prefix), id);
      db := listed.1;
      if !listed.0 && !replace {
        return Some(ExistingModel(id));
      }
      failure := Write(models[i]);
    }

    /** `_add(models, {replace})`: every model's chain, the identifiers written into the
        models; the first failure rejects the whole. */
    method Add(models: array<Props>, replace: bool) returns (r: Result<seq<Props>, Failure>)
      modifies this, models
      ensures var b := AddAll(old(db), Settings(), old(models[..]), replace);
              models[..] == b.models && db == b.db
              && r == if b.failure.Some? then Err(b.failure.value) else Ok(b.models)
    {
      ghost var given := models[..];
      ghost var done: seq<Props> := [];
      var failure: Option<Failure> := None;
      var i := 0;
      while i < models.Length
        invariant 0 <= i <= models.Length && |done| == i
        invariant models[..] == done + given[i..]
        invariant AddAll(old(db), Settings(), given[..i], replace) == Batch(done, failure, db)
      {
        ghost var failed, st := failure, db;
        assert (done + given[i..])[i] == given[i];
        ghost var a := AddOne(st, Settings(), given[i], replace);
        var f := AddModel(models, i, replace);
        assert models[i] == a.model && f == a.failure && db == a.db;
        AddAllStep(old(db), Settings(), given, i, replace);
        if failure.None? {
          failure := f;
        }
        ReplaceNext(done, given[i..], models[i]);
        assert given[i..][1..] == given[i + 1..];
        done := done + [models[i]];
        i := i + 1;
      }
      assert given[..i] == given;
      r := if failure.Some? then Err(failure.value) else Ok(models[..]);
    }

    /** Writing the element after `done` in `done + rest`. */
    static lemma ReplaceNext(done: seq<Props>, rest: seq<Props>, x: Props)
      requires rest != []
      ensures (done + rest)[|done| := x] == done + [x] + rest[1..]
    {
    }

    /** `_update(models)`: `_add` in replace mode. */
    method Update(models: array<Props>) returns (r: Result<seq<Props>, Failure>)
      modifies this, models
      ensures var b := AddAll(old(db), Settings(), old(models[..]), true);
              models[..] == b.models && db == b.db
              && r == if b.failure.Some? then Err(b.failure.value) else Ok(b.models)
    {
      r := Add(models, true);
    }

    /** `_remove(ids)`: the hash keys are collected, then SREM and DEL are sent. */
    method Remove(ids: seq<string>) returns (r: Result<(nat, nat), Failure>)
      modifies this
      ensures (r, db) == RemoveAll(old(db), prefix, ids)
    {
      var keys := [];
      var i := 0;
      while i < |ids|
        invariant 0 <= i <= |ids|
        invariant keys == HashKeys(prefix, ids[..i])
      {
        assert ids[..i + 1][..i] == ids[..i];
        keys := keys + [HashKey(prefix, ids[i])];
        i := i + 1;
      }
      assert ids[..i] == ids;
      var srem := SRem(db, IdsKey(prefix), ids);
      if srem.Err? {
        return Err(Rejected(srem.error));
      }
      db := srem.value.1;
      var del := Del(db, keys);
      db := del.value.1;
      return Ok((srem.value.0, del.value.0));
    }
  }
}
