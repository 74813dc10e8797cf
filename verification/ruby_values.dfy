/** Ruby's conversions of the untyped default values the printer renders:
    `inspect`, `to_s`, `to_i`, `!!`, `to_a` and `to_h`. A Ruby hash built
    by `Array#to_h` is a sequence of key-value pairs with distinct keys, in
    insertion order. The conversions of floats are left abstract
    (`FloatOps`). */
module RubyValues {
  import opened Wrappers
  import opened Seqs
  import opened Text
  import opened TypeSystem

  /** Ruby's Float conversions, which the model does not compute:
      `inspect` is `value.to_f.inspect` for any value (it may raise), and
      `truncate` is `Float#to_i` of the float whose `inspect` text a
      `FloatLit` carries (it raises for infinities and NaN). */
  datatype FloatOps = FloatOps(inspect: Literal -> Result<string>, truncate: string -> Result<int>)

  const NoMethod := "NoMethodError"

  // ---------------------------------------------------------------------------
  // `inspect`, `to_s`, `to_i` and `!!`.

  /** Ruby `inspect` (Ruby 2 hash syntax; hash keys are symbols). */
  function Inspect(v: Literal): string {
    match v
    case NullLit => "nil"
    case IntLit(i) => Decimal(i)
    case FloatLit(text) => text
    case StringLit(s) => Quote(s)
    case EnumLit(symbol) => ":" + symbol
    case BoolLit(b) => if b then "true" else "false"
    case ListLit(items) =>
      "[" + Join(seq(|items|, i requires 0 <= i < |items| => Inspect(items[i])), ", ") + "]"
    case ObjectLit(entries) =>
      "{" + Join(seq(|entries|, i requires 0 <= i < |entries| =>
                   ":" + entries[i].key + "=>" + Inspect(entries[i].value)), ", ") + "}"
  }

  /** Ruby `to_s`: nil is empty, strings and symbols are bare, the rest as `inspect`. */
  function ToS(v: Literal): string {
    match v
    case NullLit => ""
    case StringLit(s) => s
    case EnumLit(symbol) => symbol
    case _ => Inspect(v)
  }

  /** Ruby `value.to_i.inspect`: nil is 0, strings go through
      `String#to_i`, floats are truncated; arrays, hashes, symbols and
      booleans have no `to_i`. */
  function IntText(floats: FloatOps, v: Literal): (r: Result<string>)
    ensures r.Success? <==> v.IntLit? || v.NullLit? || v.StringLit? || (v.FloatLit? && floats.truncate(v.text).Success?)
    ensures r.Failure? && !v.FloatLit? ==> r.error == NoMethod
    ensures r.Success? ==> exists i :: r.value == Decimal(i)
  {
    match v
    case IntLit(i) => Success(Decimal(i))
    case NullLit => Success(Decimal(0))
    case StringLit(s) => Success(Decimal(StringToI(s)))
    case FloatLit(text) =>
      var i :- floats.truncate(text);
      Success(Decimal(i))
    case _ => Failure(NoMethod)
  }

  /** Ruby `(!!value).inspect`: only nil and false are false. */
  function BoolText(v: Literal): (r: string)
    ensures r == "false" <==> v == NullLit || v == BoolLit(false)
    ensures r == "true" || r == "false"
  {
    if v == NullLit || v == BoolLit(false) then "false" else "true"
  }

  // ---------------------------------------------------------------------------
  // The size of a literal: its constructors, with two more for each hash
  // entry. `to_a` and `to_h` never make a literal larger, which bounds the
  // recursion of `print_value`.

  function Size(v: Literal): (n: nat)
    ensures n >= 1
  {
    match v
    case ListLit(items) => 1 + ItemsSize(items)
    case ObjectLit(entries) => 1 + EntriesSize(entries)
    case _ => 1
  }

  function ItemsSize(items: seq<Literal>): (n: nat)
    ensures forall i :: 0 <= i < |items| ==> Size(items[i]) <= n
    decreases items
  {
    if |items| == 0 then 0
    else
      var n := Size(items[0]) + ItemsSize(items[1..]);
      assert forall i :: 1 <= i < |items| ==> items[i] == items[1..][i - 1];
      n
  }

  function EntriesSize(entries: seq<Entry>): (n: nat)
    ensures forall i :: 0 <= i < |entries| ==> 2 + Size(entries[i].value) <= n
    decreases entries
  {
    if |entries| == 0 then 0
    else
      var n := 2 + Size(entries[0].value) + EntriesSize(entries[1..]);
      assert forall i :: 1 <= i < |entries| ==> entries[i] == entries[1..][i - 1];
      n
  }

  function PairsSize(h: seq<(Literal, Literal)>): nat {
    if |h| == 0 then 0 else 2 + Size(h[0].1) + PairsSize(h[1..])
  }

  /** `[key, value]` is two larger than its value. */
  lemma PairSize(key: Literal, value: Literal)
    ensures Size(ListLit([key, value])) >= 2 + Size(value)
    ensures key.EnumLit? ==> Size(ListLit([key, value])) == 2 + Size(value)
  {
    assert [key, value][1..] == [value] && [value][1..] == [];
    assert ItemsSize([value]) == Size(value);
    assert ItemsSize([key, value]) == Size(key) + Size(value);
  }

  // ---------------------------------------------------------------------------
  // `Hash#to_a`.

  /** Ruby `Hash#to_a` on a hash with symbol keys: one `[key, value]` array
      per entry, in order. */
  function HashToA(entries: seq<Entry>): (r: seq<Literal>)
    ensures |r| == |entries|
    ensures forall i :: 0 <= i < |r| ==> r[i] == ListLit([EnumLit(entries[i].key), entries[i].value])
    ensures ItemsSize(r) == EntriesSize(entries)
  {
    if |entries| == 0 then []
    else
      var head := ListLit([EnumLit(entries[0].key), entries[0].value]);
      var r := [head] + HashToA(entries[1..]);
      PairSize(EnumLit(entries[0].key), entries[0].value);
      assert r[0] == head && r[1..] == HashToA(entries[1..]);
      r
  }

  // ---------------------------------------------------------------------------
  // Hashes: `hash[key] = value` and `Array#to_h`.

  function Keys(h: seq<(Literal, Literal)>): (r: seq<Literal>)
    ensures |r| == |h|
    ensures forall i :: 0 <= i < |h| ==> r[i] == h[i].0
  {
    if |h| == 0 then [] else [h[0].0] + Keys(h[1..])
  }

  /** Ruby `hash[key]`: the value stored under `key`, if any. */
  function Lookup(h: seq<(Literal, Literal)>, key: Literal): (r: Option<Literal>)
    ensures r.Some? <==> key in Keys(h)
  {
    if |h| == 0 then None
    else if h[0].0 == key then Some(h[0].1)
    else
      assert Keys(h) == [h[0].0] + Keys(h[1..]);
      Lookup(h[1..], key)
  }

  /** Ruby `hash[key] = value`: a key already present keeps its place and
      takes the new value; a new key goes last. */
  function HashStore(h: seq<(Literal, Literal)>, key: Literal, value: Literal): (r: seq<(Literal, Literal)>)
    ensures Keys(r) == if key in Keys(h) then Keys(h) else Keys(h) + [key]
    ensures forall k :: Lookup(r, k) == if k == key then Some(value) else Lookup(h, k)
    ensures key !in Keys(h) ==> r == h + [(key, value)]
    ensures PairsSize(r) <= PairsSize(h) + 2 + Size(value)
  {
    if |h| == 0 then
      assert Keys([(key, value)]) == [key];
      [(key, value)]
    else if h[0].0 == key then
      var r := [(key, value)] + h[1..];
      assert r[1..] == h[1..];
      assert Keys(r) == Keys(h) by {
        assert Keys(r) == [key] + Keys(h[1..]) && Keys(h) == [h[0].0] + Keys(h[1..]);
      }
      r
    else
      var rest := HashStore(h[1..], key, value);
      var r := [h[0]] + rest;
      assert r[0] == h[0] && r[1..] == rest;
      assert Keys(h) == [h[0].0] + Keys(h[1..]);
      assert Keys(r) == [h[0].0] + Keys(rest);
      assert key !in Keys(h[1..]) ==> h + [(key, value)] == [h[0]] + (h[1..] + [(key, value)]);
      r
  }

  /** The value of the last pair with `key`, if any: what a hash built from
      `pairs` stores under `key`. */
  function LastValue(pairs: seq<(Literal, Literal)>, key: Literal): Option<Literal>
    decreases |pairs|
  {
    if |pairs| == 0 then None
    else if pairs[|pairs| - 1].0 == key then Some(pairs[|pairs| - 1].1)
    else LastValue(pairs[..|pairs| - 1], key)
  }

  /** Stores the pairs into `h`, one after the other. */
  function StoreAll(h: seq<(Literal, Literal)>, pairs: seq<(Literal, Literal)>): (r: seq<(Literal, Literal)>)
    ensures PairsSize(r) <= PairsSize(h) + PairsSize(pairs)
    decreases |pairs|
  {
    if |pairs| == 0 then h
    else StoreAll(HashStore(h, pairs[0].0, pairs[0].1), pairs[1..])
  }

  /** The hash built from `pairs` in order. */
  function HashFrom(pairs: seq<(Literal, Literal)>): (r: seq<(Literal, Literal)>)
    ensures PairsSize(r) <= PairsSize(pairs)
  {
    StoreAll([], pairs)
  }

  /** An item `Array#to_h` accepts: a two-element array. */
  predicate IsPair(v: Literal) {
    v.ListLit? && |v.items| == 2
  }

  /** The exception `Array#to_h` raises for an item that is not a pair. */
  function PairError(v: Literal): string {
    if v.ListLit? then "ArgumentError" else "TypeError"
  }

  /** `pairs` are the items of a list of two-element arrays, as pairs. */
  predicate PairsOf(items: seq<Literal>, pairs: seq<(Literal, Literal)>) {
    |pairs| == |items| &&
    forall i :: 0 <= i < |items| ==> IsPair(items[i]) && pairs[i] == (items[i].items[0], items[i].items[1])
  }

  /** Item `i` is the first that is not a two-element array. */
  predicate FirstNonPair(items: seq<Literal>, i: int) {
    0 <= i < |items| && !IsPair(items[i]) && forall j :: 0 <= j < i ==> IsPair(items[j])
  }

  /** The key-value pairs of a list of two-element arrays; the first item
      that is not one raises. */
  function Pairs(items: seq<Literal>): (r: Result<seq<(Literal, Literal)>>)
    ensures r.Success? <==> forall i :: 0 <= i < |items| ==> IsPair(items[i])
    ensures r.Success? ==> PairsOf(items, r.value)
    ensures r.Success? ==> PairsSize(r.value) <= ItemsSize(items)
    ensures r.Failure? ==> (exists i :: FirstNonPair(items, i) && r.error == PairError(items[i]))
  {
    if |items| == 0 then Success([])
    else if !IsPair(items[0]) then
      assert FirstNonPair(items, 0);
      Failure(PairError(items[0]))
    else
      match Pairs(items[1..])
      case Failure(e) =>
        ghost var k :| FirstNonPair(items[1..], k) && e == PairError(items[1..][k]);
        FirstNonPairShift(items, k);
        Failure(e)
      case Success(rest) =>
        var r := [(items[0].items[0], items[0].items[1])] + rest;
        PairsCons(items, rest);
        Success(r)
  }

  lemma FirstNonPairShift(items: seq<Literal>, k: int)
    requires |items| > 0 && IsPair(items[0]) && FirstNonPair(items[1..], k)
    ensures FirstNonPair(items, k + 1) && items[k + 1] == items[1..][k]
  {
    assert forall j :: 1 <= j < k + 1 ==> items[j] == items[1..][j - 1];
  }

  lemma PairsCons(items: seq<Literal>, rest: seq<(Literal, Literal)>)
    requires |items| > 0 && IsPair(items[0])
    requires PairsOf(items[1..], rest) && PairsSize(rest) <= ItemsSize(items[1..])
    ensures PairsOf(items, [(items[0].items[0], items[0].items[1])] + rest)
    ensures PairsSize([(items[0].items[0], items[0].items[1])] + rest) <= ItemsSize(items)
  {
    var pair := (items[0].items[0], items[0].items[1]);
    var r := [pair] + rest;
    PairSize(pair.0, pair.1);
    assert items[0] == ListLit([pair.0, pair.1]);
    assert r[0] == pair && r[1..] == rest;
    assert forall i :: 1 <= i < |items| ==> items[i] == items[1..][i - 1];
  }

  /** Ruby `Array#to_h`. */
  function ArrayToH(items: seq<Literal>): (r: Result<seq<(Literal, Literal)>>)
    ensures r.Success? <==> forall i :: 0 <= i < |items| ==> IsPair(items[i])
    ensures r.Success? ==> PairsSize(r.value) <= ItemsSize(items)
  {
    var pairs :- Pairs(items);
    Success(HashFrom(pairs))
  }

  /** A hash with symbol keys as the entries the printer walks; a key is
      named by its `to_s`. */
  function EntriesOf(h: seq<(Literal, Literal)>): (r: seq<Entry>)
    ensures |r| == |h|
    ensures forall i :: 0 <= i < |h| ==> r[i] == Entry(ToS(h[i].0), h[i].1)
    ensures EntriesSize(r) == PairsSize(h)
  {
    if |h| == 0 then []
    else
      var r := [Entry(ToS(h[0].0), h[0].1)] + EntriesOf(h[1..]);
      assert r[0] == Entry(ToS(h[0].0), h[0].1) && r[1..] == EntriesOf(h[1..]);
      r
  }

  // ---------------------------------------------------------------------------
  // `to_a` and `to_h` as `print_value` calls them.

  /** Ruby `value.to_a`: an array is itself, a hash its pairs, nil empty;
      other values have no `to_a`. */
  function ToA(v: Literal): (r: Result<seq<Literal>>)
    ensures r.Success? <==> v.ListLit? || v.ObjectLit? || v.NullLit?
    ensures r.Failure? ==> r.error == NoMethod
    ensures r.Success? ==> ItemsSize(r.value) < Size(v)
  {
    match v
    case ListLit(items) => Success(items)
    case ObjectLit(entries) => Success(HashToA(entries))
    case NullLit => Success([])
    case _ => Failure(NoMethod)
  }

  /** Ruby `value.to_h`, as the entries of the hash: a hash is itself, nil
      is empty, an array of pairs is turned into a hash; other values have
      no `to_h`. */
  function ToH(v: Literal): (r: Result<seq<Entry>>)
    ensures r.Success? <==> v.ObjectLit? || v.NullLit? || (v.ListLit? && forall i :: 0 <= i < |v.items| ==> IsPair(v.items[i]))
    ensures r.Failure? && !v.ListLit? ==> r.error == NoMethod
    ensures r.Success? ==> EntriesSize(r.value) < Size(v)
  {
    match v
    case ObjectLit(entries) => Success(entries)
    case NullLit => Success([])
    case ListLit(items) =>
      var h :- ArrayToH(items);
      Success(EntriesOf(h))
    case _ => Failure(NoMethod)
  }

  // ---------------------------------------------------------------------------
  // Properties of `Array#to_h`.

  /** Storing pairs keeps the keys distinct; every key stored is the key of
      a pair or was there before; and each key holds the value of its last
      pair, or its old value when no pair has it. */
  lemma {:induction false} StoreAllLookup(h: seq<(Literal, Literal)>, pairs: seq<(Literal, Literal)>, key: Literal)
    ensures Lookup(StoreAll(h, pairs), key) == if LastValue(pairs, key).Some? then LastValue(pairs, key) else Lookup(h, key)
    decreases |pairs|
  {
    if |pairs| > 0 {
      var h' := HashStore(h, pairs[0].0, pairs[0].1);
      StoreAllLookup(h', pairs[1..], key);
      LastValueHead(pairs, key);
    }
  }

  /** The last pair with a key is in the tail, or else it is the head. */
  lemma {:induction false} LastValueHead(pairs: seq<(Literal, Literal)>, key: Literal)
    requires |pairs| > 0
    ensures LastValue(pairs, key) ==
              if LastValue(pairs[1..], key).Some? then LastValue(pairs[1..], key)
              else if pairs[0].0 == key then Some(pairs[0].1) else None
    decreases |pairs|
  {
    if |pairs| > 1 {
      var n := |pairs|;
      assert pairs[1..][..n - 2] == pairs[..n - 1][1..];
      assert pairs[1..][n - 2] == pairs[n - 1];
      LastValueHead(pairs[..n - 1], key);
    } else {
      assert pairs[1..] == [];
    }
  }

  lemma {:induction false} StoreAllKeys(h: seq<(Literal, Literal)>, pairs: seq<(Literal, Literal)>)
    requires Distinct(Keys(h))
    ensures Distinct(Keys(StoreAll(h, pairs)))
    ensures forall k :: k in Keys(StoreAll(h, pairs)) <==> k in Keys(h) || k in Keys(pairs)
    decreases |pairs|
  {
    if |pairs| > 0 {
      var h' := HashStore(h, pairs[0].0, pairs[0].1);
      assert Distinct(Keys(h')) by {
        if pairs[0].0 !in Keys(h) {
          var ks := Keys(h) + [pairs[0].0];
          forall i, j | 0 <= i < j < |ks| ensures ks[i] != ks[j] {
            if j == |ks| - 1 {
              assert ks[i] == Keys(h)[i];
            }
          }
        }
      }
      StoreAllKeys(h', pairs[1..]);
      assert Keys(pairs) == [pairs[0].0] + Keys(pairs[1..]);
    }
  }

  /** The keys of the pairs `Pairs` reads are the first elements of the items. */
  lemma PairKeys(items: seq<Literal>, pairs: seq<(Literal, Literal)>)
    requires PairsOf(items, pairs)
    ensures forall k :: k in Keys(pairs) <==> exists i :: 0 <= i < |items| && items[i].items[0] == k
  {
    forall k | k in Keys(pairs) ensures exists i :: 0 <= i < |items| && items[i].items[0] == k {
      var i :| 0 <= i < |pairs| && Keys(pairs)[i] == k;
      assert items[i].items[0] == k;
    }
    forall k | exists i :: 0 <= i < |items| && items[i].items[0] == k ensures k in Keys(pairs) {
      var i :| 0 <= i < |items| && items[i].items[0] == k;
      assert Keys(pairs)[i] == k;
    }
  }

  /** A hash built with `Array#to_h` has distinct keys, exactly the keys of
      the pairs, and under each key the value of the last pair with that key. */
  lemma ArrayToHContents(items: seq<Literal>)
    requires forall i :: 0 <= i < |items| ==> IsPair(items[i])
    ensures ArrayToH(items).Success?
    ensures Distinct(Keys(ArrayToH(items).value))
    ensures forall k :: k in Keys(ArrayToH(items).value) <==> exists i :: 0 <= i < |items| && items[i].items[0] == k
    ensures forall k :: Lookup(ArrayToH(items).value, k) == LastValue(Pairs(items).value, k)
  {
    var pairs := Pairs(items).value;
    var h := HashFrom(pairs);
    assert ArrayToH(items) == Success(h);
    assert Keys([]) == [];
    StoreAllKeys([], pairs);
    PairKeys(items, pairs);
    forall k ensures Lookup(h, k) == LastValue(pairs, k) {
      StoreAllLookup([], pairs, k);
    }
  }

  /** Pairs with distinct keys build the hash they list. */
  lemma {:induction false} StoreDistinct(h: seq<(Literal, Literal)>, pairs: seq<(Literal, Literal)>)
    requires Distinct(Keys(h + pairs))
    ensures StoreAll(h, pairs) == h + pairs
    decreases |pairs|
  {
    if |pairs| > 0 {
      var ks := Keys(h + pairs);
      assert ks[|h|] == pairs[0].0;
      assert pairs[0].0 !in Keys(h) by {
        forall i | 0 <= i < |h| ensures Keys(h)[i] != pairs[0].0 {
          assert Keys(h)[i] == ks[i];
        }
      }
      var h' := h + [pairs[0]];
      assert h + pairs == h' + pairs[1..];
      StoreDistinct(h', pairs[1..]);
    }
  }

  /** The keys of a hash, in order. */
  function EntryKeys(entries: seq<Entry>): (r: seq<string>)
    ensures |r| == |entries|
    ensures forall i :: 0 <= i < |entries| ==> r[i] == entries[i].key
  {
    seq(|entries|, i requires 0 <= i < |entries| => entries[i].key)
  }

  /** The pairs of a hash's `to_a`: one `[key, value]` per entry, keys as symbols. */
  predicate SymbolPairs(entries: seq<Entry>, pairs: seq<(Literal, Literal)>) {
    |pairs| == |entries| &&
    forall i :: 0 <= i < |pairs| ==> pairs[i] == (EnumLit(entries[i].key), entries[i].value)
  }

  lemma HashToAPairs(entries: seq<Entry>)
    ensures Pairs(HashToA(entries)).Success?
    ensures SymbolPairs(entries, Pairs(HashToA(entries)).value)
  {
    var items := HashToA(entries);
    assert forall i :: 0 <= i < |items| ==> IsPair(items[i]);
  }

  lemma SymbolKeysDistinct(entries: seq<Entry>, pairs: seq<(Literal, Literal)>)
    requires SymbolPairs(entries, pairs)
    requires Distinct(EntryKeys(entries))
    ensures Distinct(Keys([] + pairs))
  {
    var ks := Keys(pairs);
    forall i, j | 0 <= i < j < |ks| ensures ks[i] != ks[j] {
      assert ks[i] == EnumLit(EntryKeys(entries)[i]);
      assert ks[j] == EnumLit(EntryKeys(entries)[j]);
    }
    assert [] + pairs == pairs;
  }

  lemma SymbolEntries(entries: seq<Entry>, pairs: seq<(Literal, Literal)>)
    requires SymbolPairs(entries, pairs)
    ensures EntriesOf(pairs) == entries
  {
    forall i | 0 <= i < |pairs| ensures EntriesOf(pairs)[i] == entries[i] {
      assert ToS(EnumLit(entries[i].key)) == entries[i].key;
    }
  }

  /** `Hash#to_a` followed by `Array#to_h` gives back a hash whose keys are
      distinct. */
  lemma ToHOfToA(entries: seq<Entry>)
    requires Distinct(EntryKeys(entries))
    ensures ToH(ListLit(HashToA(entries))) == Success(entries)
  {
    var items := HashToA(entries);
    HashToAPairs(entries);
    var pairs := Pairs(items).value;
    SymbolKeysDistinct(entries, pairs);
    StoreDistinct([], pairs);
    assert [] + pairs == pairs;
    assert ArrayToH(items) == Success(pairs);
    SymbolEntries(entries, pairs);
  }
}
