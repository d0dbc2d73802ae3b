/** The Redis-backed collection (src/collection/redis.js) as functions of the store: the key
    schema, the options, and what `_extract`, `_get`, `_add` and `_remove` read, write and
    answer when their commands run one after the other. The methods of RedisClient.Redis are
    proved to compute exactly these functions. */
module RedisCollection {
  import opened Wrappers
  import opened RedisStore

  /** A model: its properties, all as strings. */
  type Props = map<string, string>

  /** The properties `_get` matches against, in the order of the object's keys. */
  type Query = seq<(string, string)>

  const DEFAULT_URI := "tcp://localhost:6379"
  const ID := "id"

  // ---------------------------------------------------------------- keys

  /** `prefix_id`: the last identifier generated. */
  function CounterKey(prefix: string): string { prefix + "_id" }

  /** `prefix_ids`: the set of the identifiers of all models. */
  function IdsKey(prefix: string): string { prefix + "_ids" }

  /** `prefix_index:value`: the identifiers of the models with that value for that index. */
  function IndexKey(prefix: string, index: string, value: string): string {
    prefix + "_" + index + ":" + value
  }

  /** `prefix:id`: the hash holding the properties of one model. */
  function HashKey(prefix: string, id: string): string { prefix + ":" + id }

  /** The hashes of several models, in the order of their identifiers. */
  function HashKeys(prefix: string, ids: seq<string>): (r: seq<string>)
    ensures |r| == |ids| && forall k :: 0 <= k < |ids| ==> r[k] == HashKey(prefix, ids[k])
  {
    if ids == [] then [] else HashKeys(prefix, ids[..|ids| - 1]) + [HashKey(prefix, ids[|ids| - 1])]
  }

  /** No index set shares its key with the set of identifiers. */
  lemma IndexKeyIsNotIdsKey(prefix: string, index: string, value: string)
    ensures IndexKey(prefix, index, value) != IdsKey(prefix)
  {
    var k := IndexKey(prefix, index, value);
    assert k[|prefix| + 1 + |index|] == ':';
  }

  /** A hash key names one identifier. */
  lemma HashKeyInjective(prefix: string, a: string, b: string)
    requires HashKey(prefix, a) == HashKey(prefix, b)
    ensures a == b
  {
    assert a == HashKey(prefix, a)[|prefix| + 1..];
  }

  // ---------------------------------------------------------------- options and failures

  /** The options object; `connection` (a ready-made client) is not part of this model. */
  datatype Options = Options(prefix: Option<string>, uri: Option<string>, indexes: Option<seq<string>>)

  datatype Config = Config(prefix: string, uri: string, indexes: seq<string>)

  /** What the collection throws: its own strings, or a command's error reply. */
  datatype Failure =
    | MissingPrefix
    | ExistingModel(id: string)
    | NotIndexed(fields: seq<string>)
    | Rejected(reply: CommandError)
  {
    function Message(): string {
      match this
      case MissingPrefix => "missing option: prefix"
      case ExistingModel(id) => "cannot add existing model: " + id
      case NotIndexed(fields) => "not indexed fields: " + Join(fields)
      case Rejected(reply) => reply.Message()
    }
  }

  /** `Array.prototype.join()` with its default separator. */
  function Join(xs: seq<string>): string {
    if xs == [] then "" else if |xs| == 1 then xs[0] else Join(xs[..|xs| - 1]) + "," + xs[|xs| - 1]
  }

  /** The constructor's checks: absent options count as `{}`, `uri` and `indexes` take
      their defaults, and a missing or empty prefix is refused. */
  function Configure(options: Option<Options>): (r: Result<Config, Failure>)
    ensures r.Err? <==> options.None? || options.value.prefix.None? || options.value.prefix.value == ""
    ensures r.Err? ==> r.error == MissingPrefix
    ensures r.Ok? ==> r.value.prefix == options.value.prefix.value && r.value.prefix != ""
    ensures r.Ok? ==> r.value.uri == (if options.value.uri.Some? then options.value.uri.value else DEFAULT_URI)
    ensures r.Ok? ==> r.value.indexes == (if options.value.indexes.Some? then options.value.indexes.value else [])
  {
    var o := options.GetOr(Options(None, None, None));
    if o.prefix.None? || o.prefix.value == "" then Err(MissingPrefix)
    else Ok(Config(o.prefix.value, o.uri.GetOr(DEFAULT_URI), o.indexes.GetOr([])))
  }

  // ---------------------------------------------------------------- _extract

  /** A model exists when its hash has at least one field. */
  predicate Present(st: Store, prefix: string, id: string) {
    |Fields(st, HashKey(prefix, id))| > 0
  }

  /** A stored model: its hash with the identifier mixed in. */
  function Model(st: Store, prefix: string, id: string): (m: Props)
    ensures ID in m && m[ID] == id
  {
    Fields(st, HashKey(prefix, id))[ID := id]
  }

  /** The identifiers among `ids` whose model exists, in their order. */
  function Found(st: Store, prefix: string, ids: seq<string>): (r: seq<string>)
    ensures forall x :: x in r <==> x in ids && Present(st, prefix, x)
    ensures |r| <= |ids|
  {
    if ids == [] then []
    else
      var last := ids[|ids| - 1];
      var init := ids[..|ids| - 1];
      assert ids == init + [last];
      Found(st, prefix, init) + if Present(st, prefix, last) then [last] else []
  }

  /** `_extract(ids)`: the models of `ids`, in their order, those without a hash left out. */
  function Extract(st: Store, prefix: string, ids: seq<string>): (r: seq<Props>)
    ensures |r| == |Found(st, prefix, ids)|
    ensures forall k :: 0 <= k < |r| ==> r[k] == Model(st, prefix, Found(st, prefix, ids)[k])
  {
    if ids == [] then []
    else
      var last := ids[|ids| - 1];
      Extract(st, prefix, ids[..|ids| - 1]) + if Present(st, prefix, last) then [Model(st, prefix, last)] else []
  }

  // ---------------------------------------------------------------- _get

  /** `properties.id`: the value of the first `id` key, if any. */
  function IdOf(q: Query): (r: Option<string>)
    ensures r.Some? <==> exists k :: 0 <= k < |q| && q[k].0 == ID
    ensures r.Some? ==> (ID, r.value) in q
  {
    if q == [] then None
    else if q[0].0 == ID then Some(q[0].1)
    else
      var r := IdOf(q[1..]);
      assert forall k :: 0 < k < |q| ==> q[k] == q[1..][k - 1];
      r
  }

  /** The properties once `delete properties.id` has run. */
  function WithoutId(q: Query): (r: Query)
    ensures forall p :: p in r <==> p in q && p.0 != ID
    ensures r == [] <==> forall k :: 0 <= k < |q| ==> q[k].0 == ID
  {
    if q == [] then []
    else
      assert forall p :: p in q[1..] ==> p in q;
      assert forall k :: 0 < k < |q| ==> q[k] == q[1..][k - 1];
      (if q[0].0 == ID then [] else [q[0]]) + WithoutId(q[1..])
  }

  /** The keys of `q` that are not configured indexes, in order. */
  function Unfit(q: Query, indexes: seq<string>): (r: seq<string>)
    ensures forall f :: f in r <==> (exists v :: (f, v) in q) && f !in indexes
  {
    if q == [] then []
    else
      assert forall p :: p in q[1..] ==> p in q;
      assert forall p :: p in q ==> p == q[0] || p in q[1..];
      (if q[0].0 in indexes then [] else [q[0].0]) + Unfit(q[1..], indexes)
  }

  /** The index sets named by `q`, in order. */
  function IndexKeys(prefix: string, q: Query): (r: seq<string>)
    ensures |r| == |q| && forall k :: 0 <= k < |q| ==> r[k] == IndexKey(prefix, q[k].0, q[k].1)
  {
    if q == [] then [] else [IndexKey(prefix, q[0].0, q[0].1)] + IndexKeys(prefix, q[1..])
  }

  /** `_get(properties)`: every model listed in `prefix_ids` when `properties` is empty; the
      model of `id` alone when `id` is the only key; otherwise, once every other key is
      checked to be an index, the models in the intersection of the index sets, narrowed
      to `id` when it is given. */
  function Get(cfg: Config, st: Store, q: Query): (r: Result<seq<Props>, Failure>)
    ensures r.Err? <==> WithoutId(q) != [] && Unfit(WithoutId(q), cfg.indexes) != []
    ensures r.Err? ==> r.error == NotIndexed(Unfit(WithoutId(q), cfg.indexes))
    ensures r.Ok? ==> |r.value| <= 1 || IdOf(q).None?
  {
    if q == [] then Ok(Extract(st, cfg.prefix, Members(st, IdsKey(cfg.prefix))))
    else
      var id := IdOf(q);
      var rest := WithoutId(q);
      if rest == [] then
        assert q[0].0 == ID;
        Ok(Extract(st, cfg.prefix, [id.value]))
      else
        var unfit := Unfit(rest, cfg.indexes);
        if unfit != [] then Err(NotIndexed(unfit))
        else
          var ids := SInter(st, IndexKeys(cfg.prefix, rest));
          if id.None? then Ok(Extract(st, cfg.prefix, ids))
          else if id.value in ids then Ok(Extract(st, cfg.prefix, [id.value]))
          else Ok([])
  }

  // ---------------------------------------------------------------- _add

  /** The identifier `_add` gives a model: its own, or the next value of the counter. */
  function IdFor(st: Store, prefix: string, model: Props): string {
    if ID in model then model[ID] else Decimal(Counter(st, CounterKey(prefix)) + 1)
  }

  /** The index sets a model belongs in: one per configured index the model has a value
      for, in the order of the indexes. */
  function IndexKeysOf(prefix: string, indexes: seq<string>, model: Props): (r: seq<string>)
    ensures forall i :: i in indexes && i in model ==> IndexKey(prefix, i, model[i]) in r
    ensures forall k :: k in r ==> exists i :: i in indexes && i in model && k == IndexKey(prefix, i, model[i])
    ensures IdsKey(prefix) !in r
  {
    if indexes == [] then []
    else
      var i := indexes[|indexes| - 1];
      var init := indexes[..|indexes| - 1];
      assert indexes == init + [i];
      if i in model then
        IndexKeyIsNotIdsKey(prefix, i, model[i]);
        IndexKeysOf(prefix, init, model) + [IndexKey(prefix, i, model[i])]
      else IndexKeysOf(prefix, init, model)
  }

  /** The SADDs of `id` to the index sets of `keys`, one after the other. */
  function AddToSets(st: Store, keys: seq<string>, id: string): (r: Store)
    ensures forall k, x :: x in Members(r, k) <==> x in Members(st, k) || (x == id && k in keys)
    ensures forall k :: k !in keys ==> Members(r, k) == Members(st, k)
    ensures r.counters == st.counters && r.hashes == st.hashes
    ensures Valid(st) ==> Valid(r)
  {
    if keys == [] then st
    else
      var init := keys[..|keys| - 1];
      assert keys == init + [keys[|keys| - 1]];
      SAdd(AddToSets(st, init, id), keys[|keys| - 1], id).1
  }

  /** One more configured index in the SADD loop: its set gains the identifier when the
      model has a value for it. */
  lemma AddToSetsStep(st: Store, prefix: string, indexes: seq<string>, m: Props, id: string, j: nat)
    requires j < |indexes|
    ensures var before := AddToSets(st, IndexKeysOf(prefix, indexes[..j], m), id);
            AddToSets(st, IndexKeysOf(prefix, indexes[..j + 1], m), id) ==
              if indexes[j] in m then SAdd(before, IndexKey(prefix, indexes[j], m[indexes[j]]), id).1 else before
  {
    var keys := IndexKeysOf(prefix, indexes[..j], m);
    assert indexes[..j + 1][..j] == indexes[..j];
    if indexes[j] in m {
      var key := IndexKey(prefix, indexes[j], m[indexes[j]]);
      assert IndexKeysOf(prefix, indexes[..j + 1], m) == keys + [key];
      assert (keys + [key])[..|keys|] == keys;
    }
  }

  /** What one model's promise chain leaves: the model, with the identifier written into
      it; the failure it rejects with, if any; the store. */
  datatype Added = Added(model: Props, failure: Option<Failure>, db: Store)

  /** A model whose only key is `id` has nothing to store. */
  lemma OnlyIdLeavesNothing(m: Props)
    ensures |m - {ID}| == 0 <==> m.Keys <= {ID}
  {
    if |m - {ID}| == 0 {
      assert (m - {ID}).Keys == {};
    } else {
      var f :| f in (m - {ID});
    }
  }

  /** The first step of one model of `_add`: a model without `id` takes the next value of
      the counter, written into the model; a model with one keeps it and the counter. */
  function Number(st: Store, prefix: string, model: Props): (r: (Props, Store))
    ensures r.0 == model[ID := IdFor(st, prefix, model)]
    ensures Counter(r.1, CounterKey(prefix)) == Counter(st, CounterKey(prefix)) + if ID in model then 0 else 1
    ensures r.1.sets == st.sets && r.1.hashes == st.hashes
    ensures Valid(st) ==> Valid(r.1)
  {
    var counted := if ID in model then st else Incr(st, CounterKey(prefix)).1;
    (model[ID := IdFor(st, prefix, model)], counted)
  }

  /** HMSET of every property of a model but `id` into its hash; refused when there is no
      other property, in which case the store is unchanged. */
  function StoreFields(st: Store, cfg: Config, m: Props): (r: (Option<Failure>, Store))
    requires ID in m
    ensures r.0.None? || r.0 == Some(Rejected(WrongArity("hmset")))
    ensures r.0.Some? <==> m.Keys <= {ID}
    ensures Fields(r.1, HashKey(cfg.prefix, m[ID])) ==
              if r.0.Some? then Fields(st, HashKey(cfg.prefix, m[ID]))
              else Fields(st, HashKey(cfg.prefix, m[ID])) + (m - {ID})
    ensures forall k :: k != HashKey(cfg.prefix, m[ID]) ==> Fields(r.1, k) == Fields(st, k)
    ensures r.1.sets == st.sets && r.1.counters == st.counters
    ensures Valid(st) ==> Valid(r.1)
  {
    var stored := HMSet(st, HashKey(cfg.prefix, m[ID]), m - {ID});
    OnlyIdLeavesNothing(m);
    if stored.Err? then (Some(Rejected(stored.error)), st) else (None, stored.value)
  }

  /** The last step of one accepted model: HMSET of every property but `id` into its hash,
      and the SADDs to its index sets, which run even when HMSET is refused for want of
      fields. */
  function Write(st: Store, cfg: Config, m: Props): (r: (Option<Failure>, Store))
    requires ID in m
    ensures r.0.None? || r.0 == Some(Rejected(WrongArity("hmset")))
    ensures r.0.Some? <==> m.Keys <= {ID}
    ensures Fields(r.1, HashKey(cfg.prefix, m[ID])) ==
              if r.0.Some? then Fields(st, HashKey(cfg.prefix, m[ID]))
              else Fields(st, HashKey(cfg.prefix, m[ID])) + (m - {ID})
    ensures forall k :: k != HashKey(cfg.prefix, m[ID]) ==> Fields(r.1, k) == Fields(st, k)
    ensures forall k, x :: x in Members(r.1, k) <==>
              x in Members(st, k) || (x == m[ID] && k in IndexKeysOf(cfg.prefix, cfg.indexes, m))
    ensures Members(r.1, IdsKey(cfg.prefix)) == Members(st, IdsKey(cfg.prefix))
    ensures r.1.counters == st.counters
    ensures Valid(st) ==> Valid(r.1)
  {
    var stored := StoreFields(st, cfg, m);
    var keys := IndexKeysOf(cfg.prefix, cfg.indexes, m);
    var indexed := AddToSets(stored.1, keys, m[ID]);
    SetsAfterFields(st, stored.1, keys, m[ID], indexed);
    (stored.0, indexed)
  }

  /** The SADDs of `id` after a write that left the sets alone. */
  lemma SetsAfterFields(st: Store, stored: Store, keys: seq<string>, id: string, indexed: Store)
    requires stored.sets == st.sets && indexed == AddToSets(stored, keys, id)
    ensures forall k, x :: x in Members(indexed, k) <==> x in Members(st, k) || (x == id && k in keys)
    ensures forall k :: k !in keys ==> Members(indexed, k) == Members(st, k)
    ensures forall k :: Fields(indexed, k) == Fields(stored, k)
  {
    assert forall k :: Members(stored, k) == Members(st, k);
  }

  /** One model of `_add`: it is numbered; its identifier joins `prefix_ids`, and if it was
      there already outside replace mode the model is refused; otherwise it is written. */
  function AddOne(st: Store, cfg: Config, model: Props, replace: bool): (r: Added)
    ensures r.model == model[ID := IdFor(st, cfg.prefix, model)]
    ensures Counter(r.db, CounterKey(cfg.prefix)) ==
              Counter(st, CounterKey(cfg.prefix)) + if ID in model then 0 else 1
    ensures IdFor(st, cfg.prefix, model) in Members(r.db, IdsKey(cfg.prefix))
    ensures r.failure == Some(ExistingModel(IdFor(st, cfg.prefix, model))) <==>
              IdFor(st, cfg.prefix, model) in Members(st, IdsKey(cfg.prefix)) && !replace
    ensures r.failure == Some(Rejected(WrongArity("hmset"))) <==>
              !(IdFor(st, cfg.prefix, model) in Members(st, IdsKey(cfg.prefix)) && !replace)
              && model.Keys <= {ID}
    ensures r.failure.None? || r.failure == Some(Rejected(WrongArity("hmset")))
            || r.failure == Some(ExistingModel(IdFor(st, cfg.prefix, model)))
    ensures Valid(st) ==> Valid(r.db)
  {
    var numbered := Number(st, cfg.prefix, model);
    var id := numbered.0[ID];
    assert id == IdFor(st, cfg.prefix, model) && Members(numbered.1, IdsKey(cfg.prefix)) == Members(st, IdsKey(cfg.prefix));
    var listed := SAdd(numbered.1, IdsKey(cfg.prefix), id);
    if !listed.0 && !replace then Added(numbered.0, Some(ExistingModel(id)), listed.1)
    else
      var written := Write(listed.1, cfg, numbered.0);
      assert numbered.0.Keys <= {ID} <==> model.Keys <= {ID};
      Added(numbered.0, written.0, written.1)
  }

  /** The outcome of `_add` on several models: the models with their identifiers, the first
      failure, the store. */
  datatype Batch = Batch(models: seq<Props>, failure: Option<Failure>, db: Store)

  /** `_add(models, {replace})`: every model's chain runs, in order, whatever happens to the
      others; the batch fails with the first failure. */
  function AddAll(st: Store, cfg: Config, models: seq<Props>, replace: bool): (r: Batch)
    ensures |r.models| == |models|
    ensures Valid(st) ==> Valid(r.db)
  {
    if models == [] then Batch([], None, st)
    else
      var init := models[..|models| - 1];
      var b := AddAll(st, cfg, init, replace);
      var a := AddOne(b.db, cfg, models[|models| - 1], replace);
      Batch(b.models + [a.model], if b.failure.Some? then b.failure else a.failure, a.db)
  }

  /** `_add` on the first `i + 1` models: the batch of the first `i`, then the chain of
      model `i`. */
  lemma AddAllStep(st: Store, cfg: Config, models: seq<Props>, i: nat, replace: bool)
    requires i < |models|
    ensures var b := AddAll(st, cfg, models[..i], replace);
            var a := AddOne(b.db, cfg, models[i], replace);
            AddAll(st, cfg, models[..i + 1], replace) ==
              Batch(b.models + [a.model], if b.failure.Some? then b.failure else a.failure, a.db)
  {
    assert models[..i + 1][..i] == models[..i];
  }

  // ---------------------------------------------------------------- _remove

  /** `_remove(ids)`: SREM of the identifiers from `prefix_ids` and DEL of their hashes; the
      index sets are left as they are. Both commands are refused without identifiers. */
  function RemoveAll(st: Store, prefix: string, ids: seq<string>): (r: (Result<(nat, nat), Failure>, Store))
    ensures r.0.Err? <==> ids == []
    ensures r.0.Err? ==> r.0.error == Rejected(WrongArity("srem")) && r.1 == st
    ensures forall x :: x in Members(r.1, IdsKey(prefix)) <==> x in Members(st, IdsKey(prefix)) && (ids == [] || x !in ids)
    ensures forall k :: k != IdsKey(prefix) ==> Members(r.1, k) == Members(st, k)
    ensures forall x :: Present(r.1, prefix, x) <==> Present(st, prefix, x) && (ids == [] || x !in ids)
    ensures forall x :: Present(r.1, prefix, x) ==> Model(r.1, prefix, x) == Model(st, prefix, x)
    ensures r.1.counters == st.counters
    ensures Valid(st) ==> Valid(r.1)
  {
    var srem := SRem(st, IdsKey(prefix), ids);
    var keys := HashKeys(prefix, ids);
    assert forall x :: HashKey(prefix, x) in keys <==> x in ids by {
      forall x ensures HashKey(prefix, x) in keys <==> x in ids {
        if HashKey(prefix, x) in keys {
          var k :| 0 <= k < |keys| && keys[k] == HashKey(prefix, x);
          HashKeyInjective(prefix, x, ids[k]);
        }
      }
    }
    // Without identifiers both commands are refused, SREM's reply first; with some, both run.
    if srem.Err? then (Err(Rejected(srem.error)), st)
    else
      var del := Del(srem.value.1, keys);
      assert del.Ok?;
      (Ok((srem.value.0, del.value.0)), del.value.1)
  }
}
