/** The part of a Redis server the collection uses: integer counters, sets of strings and
    hashes of string fields, each kind under its own keys, and the commands the collection
    sends. A set is kept as a duplicate-free sequence in the order its members were added,
    which fixes the enumeration order Redis leaves unspecified. */
module RedisStore {
  import opened Wrappers

  /** The reply Redis gives a command sent with too few arguments. */
  datatype CommandError = WrongArity(command: string)
  {
    function Message(): (m: string)
      ensures |m| > |command|
    {
      "ERR wrong number of arguments for '" + command + "' command"
    }
  }

  datatype Store = Store(counters: map<string, nat>, sets: map<string, seq<string>>,
                         hashes: map<string, map<string, string>>)

  const Empty := Store(map[], map[], map[])

  predicate NoDuplicates(s: seq<string>) {
    forall i, j :: 0 <= i < j < |s| ==> s[i] != s[j]
  }

  /** What the commands keep true of the keyspace: a set never holds a member twice and
      a hash that exists has at least one field. */
  predicate Valid(st: Store) {
    && (forall k :: k in st.sets ==> NoDuplicates(st.sets[k]))
    && (forall k :: k in st.hashes ==> |st.hashes[k]| > 0)
  }

  // ---------------------------------------------------------------- reads

  /** GET of a counter; a missing key reads as 0. */
  function Counter(st: Store, key: string): nat {
    if key in st.counters then st.counters[key] else 0
  }

  /** SMEMBERS; a missing key is the empty set. */
  function Members(st: Store, key: string): (r: seq<string>)
    ensures Valid(st) ==> NoDuplicates(r)
  {
    if key in st.sets then st.sets[key] else []
  }

  /** HGETALL; a missing key is the empty hash. */
  function Fields(st: Store, key: string): (r: map<string, string>)
    ensures Valid(st) && key in st.hashes <==> Valid(st) && |r| > 0
  {
    if key in st.hashes then st.hashes[key] else map[]
  }

  // ---------------------------------------------------------------- writes

  /** INCR: the counter goes up by one and its new value is the reply. */
  function Incr(st: Store, key: string): (r: (nat, Store))
    ensures r.0 == Counter(st, key) + 1 && Counter(r.1, key) == r.0
    ensures forall k :: k != key ==> Counter(r.1, k) == Counter(st, k)
    ensures r.1.sets == st.sets && r.1.hashes == st.hashes
    ensures Valid(st) ==> Valid(r.1)
  {
    var n := Counter(st, key) + 1;
    (n, st.(counters := st.counters[key := n]))
  }

  /** SADD of one member: the reply says whether it was not a member yet. */
  function SAdd(st: Store, key: string, member: string): (r: (bool, Store))
    ensures r.0 <==> member !in Members(st, key)
    ensures forall x :: x in Members(r.1, key) <==> x in Members(st, key) || x == member
    ensures forall k :: k != key ==> Members(r.1, k) == Members(st, k)
    ensures r.1.counters == st.counters && r.1.hashes == st.hashes
    ensures Valid(st) ==> Valid(r.1)
  {
    var s := Members(st, key);
    if member in s then (false, st)
    else
      var st' := st.(sets := st.sets[key := s + [member]]);
      assert Valid(st) ==> NoDuplicates(s + [member]);
      (true, st')
  }

  /** The members of `s` that are not in `gone`, in their order. */
  function Remaining(s: seq<string>, gone: seq<string>): (r: seq<string>)
    ensures forall x :: x in r <==> x in s && x !in gone
    ensures |r| <= |s|
    ensures |r| == |s| <==> forall x :: x in s ==> x !in gone
    ensures NoDuplicates(s) ==> NoDuplicates(r)
    decreases |s|
  {
    if s == [] then []
    else
      var rest := Remaining(s[1..], gone);
      assert forall x :: x in s[1..] ==> x in s;
      if s[0] in gone then rest
      else
        assert NoDuplicates(s) ==> s[0] !in s[1..];
        [s[0]] + rest
  }

  /** SREM of several members: an error without any, otherwise the number of them that
      were members. */
  function SRem(st: Store, key: string, members: seq<string>): (r: Result<(nat, Store), CommandError>)
    ensures r.Err? <==> members == []
    ensures r.Err? ==> r.error == WrongArity("srem")
    ensures r.Ok? ==> forall x :: x in Members(r.value.1, key) <==> x in Members(st, key) && x !in members
    ensures r.Ok? ==> forall k :: k != key ==> Members(r.value.1, k) == Members(st, k)
    ensures r.Ok? ==> r.value.1.counters == st.counters && r.value.1.hashes == st.hashes
    ensures r.Ok? && Valid(st) ==> Valid(r.value.1)
    ensures r.Ok? ==> r.value.0 == 0 <==> forall x :: x in members ==> x !in Members(st, key)
  {
    if members == [] then Err(WrongArity("srem"))
    else
      var before := Members(st, key);
      var after := Remaining(before, members);
      var st' := st.(sets := st.sets[key := after]);
      assert Valid(st) ==> Valid(st');
      Ok((Removed(before, after), st'))
  }

  /** The number of members a removal took away from a duplicate-free set. */
  function Removed(before: seq<string>, after: seq<string>): nat
    requires |after| <= |before|
  {
    |before| - |after|
  }

  /** DEL of several keys: an error without any, otherwise the number of them that
      existed. Only hashes are deleted by the collection. */
  function Del(st: Store, keys: seq<string>): (r: Result<(nat, Store), CommandError>)
    ensures r.Err? <==> keys == []
    ensures r.Err? ==> r.error == WrongArity("del")
    ensures r.Ok? ==> forall k :: k in r.value.1.hashes <==> k in st.hashes && k !in keys
    ensures r.Ok? ==> forall k :: k in r.value.1.hashes ==> r.value.1.hashes[k] == st.hashes[k]
    ensures r.Ok? ==> r.value.1.counters == st.counters && r.value.1.sets == st.sets
    ensures r.Ok? && Valid(st) ==> Valid(r.value.1)
    ensures r.Ok? ==> r.value.0 == 0 <==> forall k :: k in keys ==> k !in st.hashes
  {
    if keys == [] then Err(WrongArity("del"))
    else
      var gone := set k | k in keys && k in st.hashes;
      assert (exists k :: k in keys && k in st.hashes) ==> gone != {} by {
        if exists k :: k in keys && k in st.hashes {
          var k :| k in keys && k in st.hashes;
          assert k in gone;
        }
      }
      Ok((|gone|, st.(hashes := st.hashes - gone)))
  }

  /** HMSET: an error without any field, otherwise the fields are merged into the hash,
      the new values winning and the other fields staying. */
  function HMSet(st: Store, key: string, fields: map<string, string>): (r: Result<Store, CommandError>)
    ensures r.Err? <==> |fields| == 0
    ensures r.Err? ==> r.error == WrongArity("hmset")
    ensures r.Ok? ==> Fields(r.value, key) == Fields(st, key) + fields
    ensures r.Ok? ==> forall f :: f in Fields(r.value, key) <==> f in Fields(st, key) || f in fields
    ensures r.Ok? ==> forall f :: f in Fields(r.value, key) ==>
                        Fields(r.value, key)[f] == if f in fields then fields[f] else Fields(st, key)[f]
    ensures r.Ok? ==> forall k :: k != key ==> Fields(r.value, k) == Fields(st, k)
    ensures r.Ok? ==> (forall k :: k in r.value.hashes <==> k in st.hashes || k == key)
    ensures r.Ok? ==> r.value.counters == st.counters && r.value.sets == st.sets
    ensures r.Ok? && Valid(st) ==> Valid(r.value)
  {
    if |fields| == 0 then Err(WrongArity("hmset"))
    else
      var merged := Fields(st, key) + fields;
      assert merged.Keys >= fields.Keys;
      Ok(st.(hashes := st.hashes[key := merged]))
  }

  /** SINTER: the members of the first set that are in every other one, in the first set's
      order. Redis refuses the command without a key. */
  function SInter(st: Store, keys: seq<string>): (r: seq<string>)
    requires keys != []
    ensures forall x :: x in r <==> forall k :: k in keys ==> x in Members(st, k)
    ensures Valid(st) ==> NoDuplicates(r)
  {
    InAll(st, Members(st, keys[0]), keys)
  }

  /** The members of `s` found in the sets under every key of `keys`. */
  function InAll(st: Store, s: seq<string>, keys: seq<string>): (r: seq<string>)
    ensures forall x :: x in r <==> x in s && forall k :: k in keys ==> x in Members(st, k)
    ensures NoDuplicates(s) ==> NoDuplicates(r)
    decreases |s|
  {
    if s == [] then []
    else
      var rest := InAll(st, s[1..], keys);
      assert forall x :: x in s[1..] ==> x in s;
      if forall k :: k in keys ==> s[0] in Members(st, k) then
        assert NoDuplicates(s) ==> s[0] !in s[1..];
        [s[0]] + rest
      else rest
  }

  // ---------------------------------------------------------------- numbers as strings

  function Digit(d: nat): char
    requires d < 10
  {
    "0123456789"[d]
  }

  /** The decimal text of a counter value, as it reaches Redis and the model's `id`. */
  function Decimal(n: nat): (r: string)
    ensures |r| > 0 && (n < 10 <==> |r| == 1)
  {
    if n < 10 then [Digit(n)] else Decimal(n / 10) + [Digit(n % 10)]
  }

  /** Different numbers have different decimal texts. */
  lemma {:induction false} DecimalInjective(a: nat, b: nat)
    requires Decimal(a) == Decimal(b)
    ensures a == b
  {
    if a >= 10 && b >= 10 {
      var da, db := Decimal(a), Decimal(b);
      assert da[|da| - 1] == Digit(a % 10) && db[|db| - 1] == Digit(b % 10);
      assert a % 10 == b % 10;
      assert da[..|da| - 1] == Decimal(a / 10) && db[..|db| - 1] == Decimal(b / 10);
      DecimalInjective(a / 10, b / 10);
    } else if a < 10 && b < 10 {
      assert Decimal(a)[0] == Digit(a);
    }
  }
}
