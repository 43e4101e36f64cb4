/** The on-disk product cache of model.py: a JSON list of product snapshots,
    read leniently, written best-effort, and merged by barcode. */
module ProductCache {
  import opened Outcomes
  import opened Products

  // ---------------------------------------------------------------------------
  // The cache file

  /** What is on disk at the cache path: no file, a file that cannot be read or
      parsed as JSON, valid JSON that is not a list, or a list of products. */
  datatype CacheFile = Missing | Unreadable | NotAList | Entries(products: seq<Product>)

  /** What an attempt to write the cache file runs into: success, a failure to
      open the file (nothing written), or a failure after it was truncated. */
  datatype WriteIo = WriteOk | OpenFails | WriteFails

  /** `load_cache`: the list when the file holds one, otherwise the empty list. */
  function Load(f: CacheFile): (r: seq<Product>)
    ensures f.Entries? ==> r == f.products
    ensures !f.Entries? ==> r == []
  {
    if f.Entries? then f.products else []
  }

  /** The JSON encoder accepts ints, floats, strings and nulls; a `Decimal` makes
      it raise part-way through the output. */
  predicate NumSerializable(n: Num) {
    !n.Decimal?
  }

  predicate ProductSerializable(p: Product) {
    && NumSerializable(p.stock) && NumSerializable(p.costPrice) && NumSerializable(p.sellPrice)
    && NumSerializable(p.gst) && NumSerializable(p.gstRate) && NumSerializable(p.deductUnit)
  }

  predicate AllSerializable(ps: seq<Product>) {
    forall i :: 0 <= i < |ps| ==> ProductSerializable(ps[i])
  }

  /** A file this program can have produced: a list it wrote was serializable. */
  predicate ValidFile(f: CacheFile) {
    f.Entries? ==> AllSerializable(f.products)
  }

  /** `save_cache`: overwrite the file with the list.  Errors are swallowed: a
      file that could not be opened is left as it was; an error after opening
      (an I/O error, or an unserializable value met while streaming the JSON)
      leaves a truncated, unparsable file. */
  function Save(f: CacheFile, ps: seq<Product>, io: WriteIo): (r: CacheFile)
    ensures ValidFile(f) ==> ValidFile(r)
    ensures io == OpenFails ==> r == f
    ensures io == WriteOk && AllSerializable(ps) ==> Load(r) == ps && r.Entries?
    ensures io == WriteFails || (io == WriteOk && !AllSerializable(ps)) ==> Load(r) == [] && !r.Missing?
  {
    match io
    case OpenFails => f
    case WriteFails => Unreadable
    case WriteOk => if AllSerializable(ps) then Entries(ps) else Unreadable
  }

  /** Loading and immediately saving again is stable: the entries read back are
      the ones read before, and a second load-and-save changes nothing. */
  lemma ResaveStable(f: CacheFile)
    requires ValidFile(f)
    ensures Load(Save(f, Load(f), WriteOk)) == Load(f)
    ensures Save(Save(f, Load(f), WriteOk), Load(Save(f, Load(f), WriteOk)), WriteOk) == Save(f, Load(f), WriteOk)
  {
    assert AllSerializable(Load(f));
  }

  // ---------------------------------------------------------------------------
  // An insertion-ordered dictionary keyed by `str(product.get("barcode"))`,
  // represented by its values: the key of each value is `KeyOf(value)`.

  function Keys(d: seq<Product>): (ks: seq<string>)
    ensures |ks| == |d|
    ensures forall i :: 0 <= i < |d| ==> ks[i] == KeyOf(d[i])
  {
    seq(|d|, i requires 0 <= i < |d| => KeyOf(d[i]))
  }

  /** No two values share a key: the dictionary invariant. */
  predicate UniqueKeys(d: seq<Product>) {
    forall i, j :: 0 <= i < j < |d| ==> KeyOf(d[i]) != KeyOf(d[j])
  }

  /** The position of key `k`, or -1 when the dictionary does not hold it. */
  function IndexOfKey(d: seq<Product>, k: string): (r: int)
    ensures -1 <= r < |d|
    ensures r >= 0 ==> KeyOf(d[r]) == k
    ensures r < 0 <==> k !in Keys(d)
  {
    if |d| == 0 then -1
    else if KeyOf(d[|d| - 1]) == k then |d| - 1
    else
      var r := IndexOfKey(d[..|d| - 1], k);
      assert Keys(d) == Keys(d[..|d| - 1]) + [KeyOf(d[|d| - 1])];
      r
  }

  /** The value stored under `k`. */
  function Lookup(d: seq<Product>, k: string): (r: Option<Product>)
    ensures r.Some? <==> k in Keys(d)
    ensures r.Some? ==> r.value in d && KeyOf(r.value) == k
  {
    var i := IndexOfKey(d, k);
    if i < 0 then None else Some(d[i])
  }

  /** `d[KeyOf(p)] = p`: an existing key keeps its position and takes the new
      value; a new key goes at the end. */
  function Put(d: seq<Product>, p: Product): (r: seq<Product>)
    ensures KeyOf(p) in Keys(d) ==>
              && |r| == |d| && Keys(r) == Keys(d)
              && r[IndexOfKey(d, KeyOf(p))] == p
              && forall j :: 0 <= j < |d| && j != IndexOfKey(d, KeyOf(p)) ==> r[j] == d[j]
    ensures KeyOf(p) !in Keys(d) ==> r == d + [p]
    ensures UniqueKeys(d) ==> UniqueKeys(r)
  {
    var i := IndexOfKey(d, KeyOf(p));
    if i < 0 then d + [p] else d[i := p]
  }

  /** Assigning every product of `ps`, in order. */
  function PutAll(d: seq<Product>, ps: seq<Product>): seq<Product>
    decreases |ps|
  {
    if ps == [] then d else Put(PutAll(d, ps[..|ps| - 1]), ps[|ps| - 1])
  }

  /** The last product of `ps` whose key is `k`. */
  function LastWithKey(ps: seq<Product>, k: string): (r: Option<Product>)
    ensures r.Some? <==> k in Keys(ps)
    ensures r.Some? ==> exists i :: (0 <= i < |ps| && ps[i] == r.value && KeyOf(ps[i]) == k
                                     && forall j :: i < j < |ps| ==> KeyOf(ps[j]) != k)
    decreases |ps|
  {
    if ps == [] then None
    else if KeyOf(ps[|ps| - 1]) == k then Some(ps[|ps| - 1])
    else
      var r := LastWithKey(ps[..|ps| - 1], k);
      assert Keys(ps) == Keys(ps[..|ps| - 1]) + [KeyOf(ps[|ps| - 1])];
      assert r.Some? ==> exists i :: (0 <= i < |ps| - 1 && ps[i] == r.value && KeyOf(ps[i]) == k
                                      && forall j :: i < j < |ps| ==> KeyOf(ps[j]) != k);
      r
  }

  /** The keys of `ps` that are not among `ks`, each once, in order of first
      appearance: the keys a dictionary holding `ks` gains from `ps`. */
  function NewKeys(ks: seq<string>, ps: seq<Product>): seq<string>
    decreases |ps|
  {
    if ps == [] then []
    else
      var f := NewKeys(ks, ps[..|ps| - 1]);
      var k := KeyOf(ps[|ps| - 1]);
      if k in ks || k in f then f else f + [k]
  }

  /** `NewKeys` lists without repetition exactly the keys of `ps` missing from `ks`. */
  lemma {:induction false} NewKeysMembers(ks: seq<string>, ps: seq<Product>)
    ensures forall k :: k in NewKeys(ks, ps) <==> k in Keys(ps) && k !in ks
    ensures forall a, b :: 0 <= a < b < |NewKeys(ks, ps)| ==> NewKeys(ks, ps)[a] != NewKeys(ks, ps)[b]
    decreases |ps|
  {
    if ps != [] {
      NewKeysMembers(ks, ps[..|ps| - 1]);
      assert Keys(ps) == Keys(ps[..|ps| - 1]) + [KeyOf(ps[|ps| - 1])];
    }
  }

  /** The shape of `PutAll(d, ps)` for a dictionary `d`: its keys are those of
      `d` followed by the new keys of `ps`; under every key assigned by `ps` sits
      the last product of `ps` with that key, and under every other key the
      original value of `d`. */
  lemma {:induction false} PutAllShape(d: seq<Product>, ps: seq<Product>)
    requires UniqueKeys(d)
    ensures UniqueKeys(PutAll(d, ps))
    ensures Keys(PutAll(d, ps)) == Keys(d) + NewKeys(Keys(d), ps)
    ensures forall j :: 0 <= j < |PutAll(d, ps)| ==>
      var v := LastWithKey(ps, KeyOf(PutAll(d, ps)[j]));
      (v.Some? ==> PutAll(d, ps)[j] == v.value) && (v.None? ==> j < |d| && PutAll(d, ps)[j] == d[j])
    decreases |ps|
  {
    if ps != [] {
      var init, p := ps[..|ps| - 1], ps[|ps| - 1];
      var d0 := PutAll(d, init);
      PutAllShape(d, init);
      assert PutAll(d, ps) == Put(d0, p);
      var r := Put(d0, p);
      forall j | 0 <= j < |r|
        ensures var v := LastWithKey(ps, KeyOf(r[j]));
          (v.Some? ==> r[j] == v.value) && (v.None? ==> j < |d| && r[j] == d[j])
      {
        if KeyOf(r[j]) != KeyOf(p) {
          assert LastWithKey(ps, KeyOf(r[j])) == LastWithKey(init, KeyOf(r[j]));
          assert r[j] == d0[j];
        } else {
          assert LastWithKey(ps, KeyOf(p)) == Some(p);
          if KeyOf(p) in Keys(d0) {
            assert r[IndexOfKey(d0, KeyOf(p))] == p;
            assert j == IndexOfKey(d0, KeyOf(p));
          } else {
            assert j == |d0|;
          }
        }
      }
    }
  }

  /** A dictionary re-built from its own values, one by one, is itself. */
  lemma {:induction false} PutAllIntoEmpty(d: seq<Product>)
    requires UniqueKeys(d)
    ensures PutAll([], d) == d
    decreases |d|
  {
    if d != [] {
      var init := d[..|d| - 1];
      PutAllIntoEmpty(init);
      assert KeyOf(d[|d| - 1]) !in Keys(init);
      assert init + [d[|d| - 1]] == d;
    }
  }

  // ---------------------------------------------------------------------------
  // `_merge_into_cache`

  /** The cached products the merge keeps: those whose barcode is truthy. */
  function KeptCached(cache: seq<Product>): (r: seq<Product>)
    ensures forall p :: p in r <==> p in cache && Truthy(p.barcode)
    decreases |cache|
  {
    if cache == [] then []
    else
      var last := cache[|cache| - 1];
      assert cache == cache[..|cache| - 1] + [last];
      KeptCached(cache[..|cache| - 1]) + (if Truthy(last.barcode) then [last] else [])
  }

  /** The incoming products the merge assigns: those whose key `str(barcode)`
      is non-empty.  A missing or null barcode has key "None" and is kept. */
  function KeptIncoming(ps: seq<Product>): (r: seq<Product>)
    ensures forall p :: p in r <==> p in ps && KeyOf(p) != ""
    decreases |ps|
  {
    if ps == [] then []
    else
      var last := ps[|ps| - 1];
      assert ps == ps[..|ps| - 1] + [last];
      KeptIncoming(ps[..|ps| - 1]) + (if KeyOf(last) != "" then [last] else [])
  }

  /** The dictionary the merge starts from: the cache keyed by barcode. */
  function CachedDict(cache: seq<Product>): seq<Product> {
    PutAll([], KeptCached(cache))
  }

  /** The list `_merge_into_cache` writes for a non-empty incoming list. */
  function MergeEntries(cache: seq<Product>, incoming: seq<Product>): seq<Product> {
    PutAll(CachedDict(cache), KeptIncoming(incoming))
  }

  /** Dropping the products with an empty key does not change which product is
      last for a non-empty key. */
  lemma {:induction false} LastWithKeyKept(ps: seq<Product>, k: string)
    requires k != ""
    ensures LastWithKey(KeptIncoming(ps), k) == LastWithKey(ps, k)
    decreases |ps|
  {
    if ps != [] {
      LastWithKeyKept(ps[..|ps| - 1], k);
      var last := ps[|ps| - 1];
      var kept := KeptIncoming(ps);
      if KeyOf(last) != "" {
        assert kept[..|kept| - 1] == KeptIncoming(ps[..|ps| - 1]);
      } else {
        assert kept == KeptIncoming(ps[..|ps| - 1]);
      }
    }
  }

  /** After a merge the cache holds at most one entry per barcode key, and every
      incoming barcode maps to the last incoming product carrying it. */
  lemma MergeLastWriteWins(cache: seq<Product>, incoming: seq<Product>)
    ensures UniqueKeys(MergeEntries(cache, incoming))
    ensures forall p :: p in incoming && KeyOf(p) != "" ==>
      Lookup(MergeEntries(cache, incoming), KeyOf(p)) == LastWithKey(incoming, KeyOf(p))
  {
    var e := CachedDict(cache);
    var kin := KeptIncoming(incoming);
    var r := MergeEntries(cache, incoming);
    PutAllShape([], KeptCached(cache));
    PutAllShape(e, kin);
    NewKeysMembers(Keys(e), kin);
    forall p | p in incoming && KeyOf(p) != ""
      ensures Lookup(r, KeyOf(p)) == LastWithKey(incoming, KeyOf(p))
    {
      var k := KeyOf(p);
      LastWithKeyKept(incoming, k);
      assert p in kin;
      assert k in Keys(kin);
      assert k in Keys(r);
      var i := IndexOfKey(r, k);
      assert KeyOf(r[i]) == k;
    }
  }

  /** Merge order: the barcodes already cached keep their relative order at the
      front (the cache deduplicated by barcode), and the new barcodes follow in
      the order they first appear in the input. */
  lemma MergeOrder(cache: seq<Product>, incoming: seq<Product>)
    ensures Keys(CachedDict(cache)) == NewKeys([], KeptCached(cache))
    ensures Keys(MergeEntries(cache, incoming))
      == Keys(CachedDict(cache)) + NewKeys(Keys(CachedDict(cache)), KeptIncoming(incoming))
  {
    PutAllShape([], KeptCached(cache));
    PutAllShape(CachedDict(cache), KeptIncoming(incoming));
  }

  /** Every entry after a merge is an incoming product, or a cached product whose
      barcode was present and non-empty: cached entries without one are dropped. */
  lemma MergeOrigins(cache: seq<Product>, incoming: seq<Product>)
    ensures forall p :: p in MergeEntries(cache, incoming) ==>
      (p in incoming && KeyOf(p) != "") || (p in cache && Truthy(p.barcode))
  {
    var e := CachedDict(cache);
    var kin := KeptIncoming(incoming);
    PutAllShape([], KeptCached(cache));
    PutAllShape(e, kin);
    var r := MergeEntries(cache, incoming);
    forall p | p in r ensures (p in incoming && KeyOf(p) != "") || (p in cache && Truthy(p.barcode)) {
      var j :| 0 <= j < |r| && r[j] == p;
      var v := LastWithKey(kin, KeyOf(r[j]));
      if v.None? {
        var w := LastWithKey(KeptCached(cache), KeyOf(e[j]));
        assert w.Some?;
      }
    }
  }

  /** After assigning `ps`, every key of `ps` is present. */
  lemma NoNewKeysTwice(d: seq<Product>, ps: seq<Product>)
    requires UniqueKeys(d)
    ensures NewKeys(Keys(PutAll(d, ps)), ps) == []
  {
    var r := PutAll(d, ps);
    PutAllShape(d, ps);
    NewKeysMembers(Keys(d), ps);
    assert forall k :: k in Keys(ps) ==> k in Keys(r);
    NewKeysNone(Keys(r), ps);
  }

  /** No new keys when every key of `ps` is already there. */
  lemma {:induction false} NewKeysNone(ks: seq<string>, ps: seq<Product>)
    requires forall k :: k in Keys(ps) ==> k in ks
    ensures NewKeys(ks, ps) == []
    decreases |ps|
  {
    if ps != [] {
      var init := ps[..|ps| - 1];
      assert Keys(ps) == Keys(init) + [KeyOf(ps[|ps| - 1])];
      NewKeysNone(ks, init);
    }
  }

  /** Assigning the same products a second time changes nothing. */
  lemma PutAllAbsorbs(d: seq<Product>, ps: seq<Product>)
    requires UniqueKeys(d)
    ensures PutAll(PutAll(d, ps), ps) == PutAll(d, ps)
  {
    var r := PutAll(d, ps);
    PutAllShape(d, ps);
    PutAllShape(r, ps);
    NoNewKeysTwice(d, ps);
    var r2 := PutAll(r, ps);
    assert Keys(r2) == Keys(r);
    forall j | 0 <= j < |r| ensures r2[j] == r[j] {
      assert KeyOf(r2[j]) == Keys(r2)[j] == Keys(r)[j] == KeyOf(r[j]);
    }
  }

  /** With every incoming barcode a string, the merged list is its own cached
      dictionary: every entry has a non-empty barcode and no key repeats. */
  lemma MergedIsOwnDict(cache: seq<Product>, incoming: seq<Product>)
    requires forall p :: p in incoming ==> p.barcode.Str?
    ensures CachedDict(MergeEntries(cache, incoming)) == MergeEntries(cache, incoming)
  {
    var r := MergeEntries(cache, incoming);
    MergeLastWriteWins(cache, incoming);
    MergeOrigins(cache, incoming);
    assert forall p :: p in r ==> Truthy(p.barcode);
    KeptAll(r);
    PutAllIntoEmpty(r);
  }

  /** Merging the same list twice equals merging it once, provided every
      incoming product carries a barcode string. */
  lemma MergeIdempotent(cache: seq<Product>, incoming: seq<Product>)
    requires forall p :: p in incoming ==> p.barcode.Str?
    ensures MergeEntries(MergeEntries(cache, incoming), incoming) == MergeEntries(cache, incoming)
  {
    MergedIsOwnDict(cache, incoming);
    PutAllShape([], KeptCached(cache));
    PutAllAbsorbs(CachedDict(cache), KeptIncoming(incoming));
  }

  /** Keeping the truthy-barcode entries of a list that has only such entries. */
  lemma {:induction false} KeptAll(ps: seq<Product>)
    requires forall p :: p in ps ==> Truthy(p.barcode)
    ensures KeptCached(ps) == ps
    decreases |ps|
  {
    if ps != [] {
      KeptAll(ps[..|ps| - 1]);
      assert ps[..|ps| - 1] + [ps[|ps| - 1]] == ps;
    }
  }

  /** A product without a barcode, and one with barcode "A". */
  const Unbarcoded := Product(1, Null, Str("Tea"), NNull, Null, NNull, NNull, Null, Null, NNull, NNull, Null, NNull)
  const Barcoded := Product(2, Null, Str("Milk"), NNull, Null, NNull, NNull, Null, Str("A"), NNull, NNull, Null, NNull)

  /** Merging is not idempotent when an incoming product has no barcode: its
      key is "None", so the first merge stores it, the second drops it from the
      cached part and then appends it again behind the other products. */
  lemma MergeTwiceMovesUnbarcoded()
    ensures MergeEntries([], [Unbarcoded, Barcoded]) == [Unbarcoded, Barcoded]
    ensures MergeEntries([Unbarcoded, Barcoded], [Unbarcoded, Barcoded]) == [Barcoded, Unbarcoded]
  {
    FirstMerge();
    SecondMerge();
  }

  lemma FirstMerge()
    ensures MergeEntries([], [Unbarcoded, Barcoded]) == [Unbarcoded, Barcoded]
  {
    var p, q := Unbarcoded, Barcoded;
    assert KeyOf(p) == "None" && KeyOf(q) == "A";
    assert [p, q][..1] == [p] && [p][..0] == [];
    assert KeptIncoming([p]) == [p];
    assert KeptIncoming([p, q]) == [p, q];
    assert CachedDict([]) == [];
    assert PutAll([], [p]) == [p];
    assert Keys([p]) == ["None"];
    assert PutAll([], [p, q]) == Put([p], q);
  }

  lemma SecondMerge()
    ensures MergeEntries([Unbarcoded, Barcoded], [Unbarcoded, Barcoded]) == [Barcoded, Unbarcoded]
  {
    SecondMergeCached();
    SecondMergeIncoming();
  }

  /** Only the barcoded product survives in the cached part. */
  lemma SecondMergeCached()
    ensures CachedDict([Unbarcoded, Barcoded]) == [Barcoded]
  {
    var p, q := Unbarcoded, Barcoded;
    assert [p, q][..1] == [p] && [p][..0] == [];
    assert KeptCached([p]) == [];
    assert KeptCached([p, q]) == [q];
    assert PutAll([], [q]) == [q];
  }

  /** The unbarcoded product is appended behind it; the barcoded one replaces
      itself in place. */
  lemma SecondMergeIncoming()
    ensures PutAll([Barcoded], KeptIncoming([Unbarcoded, Barcoded])) == [Barcoded, Unbarcoded]
  {
    var p, q := Unbarcoded, Barcoded;
    assert KeyOf(p) == "None" && KeyOf(q) == "A";
    assert [p, q][..1] == [p] && [p][..0] == [];
    assert KeptIncoming([p]) == [p];
    assert KeptIncoming([p, q]) == [p, q];
    assert Keys([q]) == ["A"];
    assert PutAll([q], [p]) == [q, p];
    assert Keys([q, p]) == ["A", "None"];
    assert IndexOfKey([q, p], "A") == 0;
    assert PutAll([q], [p, q]) == Put([q, p], q);
  }

  // ---------------------------------------------------------------------------
  // Lookup by barcode

  /** `_find_in_cache_by_barcode` on the loaded list: an empty barcode never
      matches; otherwise the first entry whose key equals the barcode. */
  function FindByBarcode(entries: seq<Product>, barcode: string): (r: Option<Product>)
    ensures barcode == "" ==> r == None
    ensures r.None? && barcode != "" ==> barcode !in Keys(entries)
    ensures r.Some? ==> exists i :: (0 <= i < |entries| && entries[i] == r.value && KeyOf(entries[i]) == barcode
                                     && forall j :: 0 <= j < i ==> KeyOf(entries[j]) != barcode)
    decreases |entries|
  {
    if barcode == "" || entries == [] then None
    else if KeyOf(entries[0]) == barcode then Some(entries[0])
    else
      var r := FindByBarcode(entries[1..], barcode);
      assert Keys(entries) == [KeyOf(entries[0])] + Keys(entries[1..]);
      assert r.Some? ==> exists i :: (1 <= i < |entries| && entries[i] == r.value && KeyOf(entries[i]) == barcode
                                      && forall j :: 0 <= j < i ==> KeyOf(entries[j]) != barcode);
      r
  }

  /** Whenever the barcode is non-empty, a hit happens exactly when some entry
      carries it; on a merged cache the hit is the single entry under that key. */
  lemma FindInMergedCache(cache: seq<Product>, incoming: seq<Product>, barcode: string)
    requires barcode != ""
    ensures FindByBarcode(MergeEntries(cache, incoming), barcode) == Lookup(MergeEntries(cache, incoming), barcode)
  {
    var r := MergeEntries(cache, incoming);
    MergeLastWriteWins(cache, incoming);
    var f := FindByBarcode(r, barcode);
    if f.Some? {
      var i :| 0 <= i < |r| && r[i] == f.value && KeyOf(r[i]) == barcode;
      assert IndexOfKey(r, barcode) == i;
    }
  }

  // ---------------------------------------------------------------------------
  // Substring search

  /** A product matches a query when the lower-cased query occurs in its
      lower-cased `str(name)` or `str(barcode)` (missing columns read as ""). */
  predicate Matches(p: Product, query: string) {
    Contains(Lower(StrGetOr(p.name)), Lower(query)) || Contains(Lower(StrGetOr(p.barcode)), Lower(query))
  }

  /** All matching entries, in storage order. */
  function Matching(entries: seq<Product>, query: string): (r: seq<Product>)
    ensures |r| <= |entries|
    ensures forall p :: p in r <==> p in entries && Matches(p, query)
    decreases |entries|
  {
    if entries == [] then []
    else
      var last := entries[|entries| - 1];
      assert entries == entries[..|entries| - 1] + [last];
      Matching(entries[..|entries| - 1], query) + (if Matches(last, query) then [last] else [])
  }

  /** The first `n` elements (all of them when there are fewer). */
  function Take(s: seq<Product>, n: nat): (r: seq<Product>)
    ensures |r| == if |s| <= n then |s| else n
    ensures r <= s
  {
    if |s| <= n then s else s[..n]
  }

  /** What `search_cache` returns on the loaded list: nothing for an empty
      query; the first `limit` matches for a positive limit; and for a limit of
      zero or less, the first entry alone when it matches (the loop stops after
      looking at one entry). */
  function SearchResult(entries: seq<Product>, query: string, limit: int): seq<Product> {
    if query == "" then []
    else if limit >= 1 then Take(Matching(entries, query), limit)
    else if |entries| > 0 && Matches(entries[0], query) then [entries[0]]
    else []
  }

  /** The search results are matches, in storage order, never more than the
      limit (one, for a limit below one), and all matches when there are fewer. */
  lemma SearchResultProperties(entries: seq<Product>, query: string, limit: int)
    ensures query == "" ==> SearchResult(entries, query, limit) == []
    ensures forall p :: p in SearchResult(entries, query, limit) ==> p in entries && Matches(p, query)
    ensures SearchResult(entries, query, limit) <= Matching(entries, query)
    ensures limit >= 1 ==> |SearchResult(entries, query, limit)| <= limit
    ensures limit < 1 ==> |SearchResult(entries, query, limit)| <= 1
    ensures query != "" && limit >= 1 ==>
      |SearchResult(entries, query, limit)| == if |Matching(entries, query)| <= limit then |Matching(entries, query)| else limit
    ensures query != "" && limit >= |Matching(entries, query)| ==> SearchResult(entries, query, limit) == Matching(entries, query)
  {
    if query != "" && limit < 1 && |entries| > 0 && Matches(entries[0], query) {
      MatchingFirst(entries, query);
    }
  }

  /** When the first entry matches, it is the first match. */
  lemma {:induction false} MatchingFirst(entries: seq<Product>, query: string)
    requires |entries| > 0 && Matches(entries[0], query)
    ensures |Matching(entries, query)| > 0 && Matching(entries, query)[0] == entries[0]
    decreases |entries|
  {
    if |entries| > 1 {
      MatchingFirst(entries[..|entries| - 1], query);
      assert entries[..|entries| - 1][0] == entries[0];
    }
  }

  /** Extending the scanned prefix by one entry extends the matches by at most it. */
  lemma MatchingStep(entries: seq<Product>, query: string, i: nat)
    requires i < |entries|
    ensures Matching(entries[..i + 1], query)
      == Matching(entries[..i], query) + (if Matches(entries[i], query) then [entries[i]] else [])
  {
    assert entries[..i + 1][..i] == entries[..i];
  }

  /** The matches of a prefix are a prefix of the matches of the whole list. */
  lemma {:induction false} MatchingPrefix(entries: seq<Product>, query: string, i: nat)
    requires i <= |entries|
    ensures Matching(entries[..i], query) <= Matching(entries, query)
    decreases |entries|
  {
    if i < |entries| {
      var init := entries[..|entries| - 1];
      MatchingPrefix(init, query, i);
      assert init[..i] == entries[..i];
    } else {
      assert entries[..i] == entries;
    }
  }
}
