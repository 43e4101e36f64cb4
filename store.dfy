/** `ProductModel` of model.py: the read-through product cache, the sale
    transaction and the attendance transitions, over an abstract state made of
    the cache file and the database tables.  Every database call takes the
    database's answer (or failure) as an input, and every cache write the
    outcome of the file write. */
module Store {
  import opened Outcomes
  import opened Products
  import opened ProductCache
  import opened Sales
  import opened Attendance
  import Strip

  /** All product ids differ (the primary key of the products table). */
  predicate UniqueIds(table: seq<Product>) {
    forall a, b :: 0 <= a < b < |table| ==> table[a].id != table[b].id
  }

  /** Attendance ids grow along the table and stay below the next
      auto-increment value. */
  predicate AttendanceIdsIncrease(rows: seq<AttendanceRow>, next: nat) {
    && IdsBelow(rows, next)
    && forall a, b :: 0 <= a < b < |rows| ==> rows[a].id < rows[b].id
  }

  /** `fetch_all_products`: every row of the table, normalised, in scan order. */
  function AllProducts(table: seq<Product>): (r: seq<Product>)
    ensures |r| == |table|
    ensures forall i :: 0 <= i < |table| ==> r[i] == Normalize(table[i])
  {
    seq(|table|, i requires 0 <= i < |table| => Normalize(table[i]))
  }

  /** The rows `search_products` returns for the database's matching rows. */
  function SearchRows(rows: seq<Product>): (r: seq<Product>)
    ensures |r| == |rows|
    ensures forall i :: 0 <= i < |rows| ==> r[i] == Normalize(SearchColumns(rows[i]))
  {
    seq(|rows|, i requires 0 <= i < |rows| => Normalize(SearchColumns(rows[i])))
  }

  class ProductModel {
    /** The cache file on disk. */
    var cacheFile: CacheFile
    /** The products table, in primary-key (scan) order. */
    var products: seq<Product>
    /** The sales table. */
    var sales: seq<SaleRow>
    /** The attendance table of the staff database, and its auto-increment value. */
    var attendance: seq<AttendanceRow>
    var nextAttendanceId: nat
    /** How many queries this object has sent to the products database. */
    ghost var productQueries: nat

    ghost predicate Valid()
      reads this
    {
      && ValidFile(cacheFile)
      && UniqueIds(products)
      && AttendanceIdsIncrease(attendance, nextAttendanceId)
    }

    constructor (cacheFile: CacheFile, products: seq<Product>, sales: seq<SaleRow>, attendance: seq<AttendanceRow>, nextAttendanceId: nat)
      requires ValidFile(cacheFile) && UniqueIds(products) && AttendanceIdsIncrease(attendance, nextAttendanceId)
      ensures Valid()
      ensures this.cacheFile == cacheFile && this.products == products && this.sales == sales
      ensures this.attendance == attendance && this.nextAttendanceId == nextAttendanceId
      ensures productQueries == 0
    {
      this.cacheFile := cacheFile;
      this.products := products;
      this.sales := sales;
      this.attendance := attendance;
      this.nextAttendanceId := nextAttendanceId;
      productQueries := 0;
    }

    // -------------------------------------------------------------------------
    // Cache helpers

    /** `save_cache`: overwrite the cache file; a failure is swallowed. */
    method SaveCache(ps: seq<Product>, io: WriteIo)
      requires Valid()
      modifies this
      ensures Valid()
      ensures cacheFile == Save(old(cacheFile), ps, io)
      ensures products == old(products) && sales == old(sales) && attendance == old(attendance)
      ensures nextAttendanceId == old(nextAttendanceId) && productQueries == old(productQueries)
    {
      cacheFile := Save(cacheFile, ps, io);
    }

    /** `search_cache` on the loaded cache file. */
    method SearchCache(query: string, limit: int) returns (results: seq<Product>)
      ensures results == SearchResult(Load(cacheFile), query, limit)
    {
      results := SearchEntries(Load(cacheFile), query, limit);
    }

    /** `_merge_into_cache`: key the loaded cache by barcode (dropping entries
        without one), assign every incoming product with a non-empty key, and
        write the dictionary's values back.  An empty list writes nothing. */
    method MergeIntoCache(incoming: seq<Product>, io: WriteIo)
      requires Valid()
      modifies this
      ensures Valid()
      ensures incoming == [] ==> cacheFile == old(cacheFile)
      ensures incoming != [] ==> cacheFile == Save(old(cacheFile), MergeEntries(Load(old(cacheFile)), incoming), io)
      ensures products == old(products) && sales == old(sales) && attendance == old(attendance)
      ensures nextAttendanceId == old(nextAttendanceId) && productQueries == old(productQueries)
    {
      if incoming == [] {
        return;
      }
      var dict := MergedDict(Load(cacheFile), incoming);
      SaveCache(dict, io);
    }

    // -------------------------------------------------------------------------
    // Read-through lookups

    /** `fetch_product_by_barcode`.  `answer` is what the barcode query returns
        (a row of the table, no row, or the error a failing connection or
        query raises). */
    method FetchProductByBarcode(barcode: string, answer: DbResult<Option<Product>>, io: WriteIo)
      returns (r: DbResult<Option<Product>>)
      requires Valid()
      modifies this
      ensures Valid()
      ensures products == old(products) && sales == old(sales) && attendance == old(attendance)
      ensures nextAttendanceId == old(nextAttendanceId)
      // a cache hit is returned as is and costs no query
      ensures FindByBarcode(Load(old(cacheFile)), barcode).Some? ==>
        && r == Ok(FindByBarcode(Load(old(cacheFile)), barcode))
        && cacheFile == old(cacheFile) && productQueries == old(productQueries)
      // a miss costs exactly one query
      ensures FindByBarcode(Load(old(cacheFile)), barcode).None? ==>
        && productQueries == old(productQueries) + 1
        && match answer
           case Ok(None) => r == Ok(None) && cacheFile == old(cacheFile)
           case Ok(Some(row)) =>
             && r == Ok(Some(Normalize(row)))
             && cacheFile == Save(old(cacheFile), MergeEntries(Load(old(cacheFile)), [Normalize(row)]), io)
           case _ => r == answer && cacheFile == old(cacheFile)
    {
      var cached := FindByBarcode(Load(cacheFile), barcode);
      if cached.Some? {
        return Ok(cached);
      }
      productQueries := productQueries + 1;
      match answer
      case Ok(None) =>
        r := Ok(None);
      case Ok(Some(row)) =>
        var product := Normalize(row);
        MergeIntoCache([product], io);
        r := Ok(Some(product));
      case _ =>
        r := answer;
    }

    /** `search_products`: the stripped query against the cache first; only when
        that finds nothing, the database's name/barcode search, whose rows are
        normalised and merged into the cache.  `answer` is what that query
        returns. */
    method SearchProducts(query: string, limit: int, answer: DbResult<seq<Product>>, io: WriteIo)
      returns (r: DbResult<seq<Product>>)
      requires Valid()
      modifies this
      ensures Valid()
      ensures products == old(products) && sales == old(sales) && attendance == old(attendance)
      ensures nextAttendanceId == old(nextAttendanceId)
      ensures var hits := SearchResult(Load(old(cacheFile)), Strip.Strip(query, IsSpace), limit);
        && (hits != [] ==> r == Ok(hits) && cacheFile == old(cacheFile) && productQueries == old(productQueries))
        && (hits == [] ==> productQueries == old(productQueries) + 1)
        && (hits == [] && !answer.Ok? ==> r == answer && cacheFile == old(cacheFile))
        && (hits == [] && answer.Ok? ==> r == Ok(SearchRows(answer.value)))
        && (hits == [] && answer.Ok? && answer.value == [] ==> cacheFile == old(cacheFile))
        && (hits == [] && answer.Ok? && answer.value != [] ==>
              cacheFile == Save(old(cacheFile), MergeEntries(Load(old(cacheFile)), SearchRows(answer.value)), io))
    {
      var q := Strip.Strip(query, IsSpace);
      var cachedResults := SearchCache(q, limit);
      if cachedResults != [] {
        return Ok(cachedResults);
      }
      productQueries := productQueries + 1;
      if !answer.Ok? {
        return answer;
      }
      var found := SearchRows(answer.value);
      if found != [] {
        MergeIntoCache(found, io);
      }
      r := Ok(found);
    }

    /** `prime_cache`: an existing cache file is returned as loaded unless a
        refresh is forced; otherwise the whole products table is read, written
        to the cache (best effort) and returned.  `failure` says whether and how
        the full scan fails. */
    method PrimeCache(forceRefresh: bool, failure: Option<ReadFailure>, io: WriteIo) returns (r: DbResult<seq<Product>>)
      requires Valid()
      modifies this
      ensures Valid()
      ensures products == old(products) && sales == old(sales) && attendance == old(attendance)
      ensures nextAttendanceId == old(nextAttendanceId)
      ensures !old(cacheFile).Missing? && !forceRefresh ==>
        r == Ok(Load(old(cacheFile))) && cacheFile == old(cacheFile) && productQueries == old(productQueries)
      ensures (old(cacheFile).Missing? || forceRefresh) && failure.Some? ==>
        r == Raised(failure.value) && cacheFile == old(cacheFile)
      ensures (old(cacheFile).Missing? || forceRefresh) && failure.None? ==>
        r == Ok(AllProducts(old(products))) && cacheFile == Save(old(cacheFile), AllProducts(old(products)), io)
    {
      if !cacheFile.Missing? && !forceRefresh {
        return Ok(Load(cacheFile));
      }
      productQueries := productQueries + 1;
      if failure.Some? {
        return Raised(failure.value);
      }
      var all := AllProducts(products);
      SaveCache(all, io);
      r := Ok(all);
    }

    /** `refresh_cache`: a forced `prime_cache`. */
    method RefreshCache(failure: Option<ReadFailure>, io: WriteIo) returns (r: DbResult<seq<Product>>)
      requires Valid()
      modifies this
      ensures Valid()
      ensures products == old(products) && sales == old(sales) && attendance == old(attendance)
      ensures nextAttendanceId == old(nextAttendanceId)
      ensures failure.Some? ==> r == Raised(failure.value) && cacheFile == old(cacheFile)
      ensures failure.None? ==> r == Ok(AllProducts(old(products))) && cacheFile == Save(old(cacheFile), AllProducts(old(products)), io)
      ensures failure.None? && io == WriteOk && AllSerializable(AllProducts(old(products))) ==> Load(cacheFile) == AllProducts(old(products))
    {
      r := PrimeCache(true, failure, io);
    }

    // -------------------------------------------------------------------------
    // Sales

    /** `record_sale`: in one transaction, per item in cart order, insert a sale
        row (with id `saleIds[i]`) and floor-decrement the product's stock; commit
        once.  An empty cart returns false and touches nothing.  If any statement
        fails (`fault`), the transaction is rolled back: no sale row and no stock
        change remain, and `DatabaseError` is raised. */
    method RecordSale(items: seq<CartItem>, methodType: string, saleIds: seq<int>, fault: Option<nat>)
      returns (r: DbResult<bool>)
      requires Valid()
      requires |saleIds| == |items|
      modifies this
      ensures Valid()
      ensures cacheFile == old(cacheFile) && attendance == old(attendance) && nextAttendanceId == old(nextAttendanceId)
      ensures items == [] ==> r == Ok(false) && products == old(products) && sales == old(sales)
      ensures items != [] && FaultsWithin(fault, |items|) ==>
        r == DatabaseError && products == old(products) && sales == old(sales)
      ensures items != [] && !FaultsWithin(fault, |items|) ==>
        && r == Ok(true)
        && sales == old(sales) + SaleRows(items, methodType, saleIds)
        && products == ApplyItems(old(products), items)
    {
      if items == [] {
        return Ok(false);
      }
      productQueries := productQueries + 1;
      // the transaction's working view of the two tables
      var table := products;
      var written := sales;
      var i := 0;
      while i < |items|
        invariant 0 <= i <= |items|
        invariant fault.Some? ==> fault.value >= 2 * i
        invariant table == ApplyItems(products, items[..i])
        invariant written == sales + SaleRows(items[..i], methodType, saleIds[..i])
      {
        if fault == Some(2 * i) {
          return DatabaseError;
        }
        written := written + [SaleRow(saleIds[i], items[i].prodId, methodType, items[i].amount, items[i].qty)];
        if fault == Some(2 * i + 1) {
          return DatabaseError;
        }
        assert items[..i + 1][..i] == items[..i];
        table := ApplyItem(table, items[i]);
        i := i + 1;
      }
      if fault == Some(2 * |items|) {
        return DatabaseError;
      }
      assert items[..i] == items && saleIds[..i] == saleIds;
      ApplyItemsFrame(products, items);
      products, sales := table, written;
      r := Ok(true);
    }

    // -------------------------------------------------------------------------
    // Attendance

    /** `get_today_attendance`: the staff member's row of today with the highest
        id.  `failure` says whether and how the query fails. */
    method GetTodayAttendance(staffId: int, today: int, failure: Option<ReadFailure>) returns (r: DbResult<Option<AttendanceRow>>)
      ensures failure.Some? ==> r == Raised(failure.value)
      ensures failure.None? ==> r == Ok(LatestToday(attendance, staffId, today))
    {
      if failure.Some? {
        return Raised(failure.value);
      }
      r := Ok(LatestToday(attendance, staffId, today));
    }

    /** `clock_in`: insert an open row for today and return its auto-increment
        id; the new row is then the staff member's attendance for today.
        `fails` says whether the insert raises (the transaction rolls back). */
    method ClockIn(staffId: int, role: string, salary: real, today: int, now: int, fails: bool)
      returns (r: DbResult<nat>)
      requires Valid()
      modifies this
      ensures Valid()
      ensures cacheFile == old(cacheFile) && products == old(products) && sales == old(sales)
      ensures fails ==> r == DatabaseError && attendance == old(attendance) && nextAttendanceId == old(nextAttendanceId)
      ensures !fails ==>
        && r == Ok(old(nextAttendanceId))
        && attendance == old(attendance) + [OpenRow(r.value, staffId, role, salary, today, now)]
        && nextAttendanceId == old(nextAttendanceId) + 1
        && LatestToday(attendance, staffId, today) == Some(OpenRow(r.value, staffId, role, salary, today, now))
    {
      if fails {
        return DatabaseError;
      }
      var row := OpenRow(nextAttendanceId, staffId, role, salary, today, now);
      ClockInIsLatest(attendance, row);
      attendance := attendance + [row];
      r := Ok(nextAttendanceId);
      nextAttendanceId := nextAttendanceId + 1;
    }

    /** `clock_out`: set the time-out of the row with that id, closed or not, and
        report whether a row was updated.  `fails` says whether the update raises. */
    method ClockOut(attendanceId: nat, now: int, fails: bool) returns (r: DbResult<bool>)
      requires Valid()
      modifies this
      ensures Valid()
      ensures cacheFile == old(cacheFile) && products == old(products) && sales == old(sales)
      ensures nextAttendanceId == old(nextAttendanceId)
      ensures fails ==> r == DatabaseError && attendance == old(attendance)
      ensures !fails ==>
        && r == Ok(HasRow(old(attendance), attendanceId))
        && attendance == CloseRows(old(attendance), attendanceId, now)
    {
      if fails {
        return DatabaseError;
      }
      r := Ok(HasRow(attendance, attendanceId));
      attendance := CloseRows(attendance, attendanceId, now);
    }
  }

  /** The loop of `search_cache`: scan the entries in storage order, collecting
      the matching ones, and stop as soon as the limit is reached. */
  method SearchEntries(entries: seq<Product>, query: string, limit: int) returns (results: seq<Product>)
    ensures results == SearchResult(entries, query, limit)
  {
    if query == "" {
      return [];
    }
    results := [];
    var i := 0;
    assert entries[..0] == [];
    while i < |entries|
      invariant 0 <= i <= |entries|
      invariant results == Matching(entries[..i], query)
      invariant i > 0 ==> |results| < limit
      invariant i == 0 ==> results == []
    {
      MatchingStep(entries, query, i);
      if Matches(entries[i], query) {
        results := results + [entries[i]];
      }
      i := i + 1;
      if |results| >= limit {
        if limit >= 1 {
          SearchStopsAtLimit(entries, query, limit, i);
        } else {
          assert i == 1;
          SearchStopsAfterFirst(entries, query, limit);
        }
        return;
      }
    }
    assert entries[..i] == entries;
    SearchScansAll(entries, query, limit);
  }

  /** The two loops of `_merge_into_cache`: key the cached entries that have a
      truthy barcode, then assign every incoming product whose key is not empty. */
  method MergedDict(cached: seq<Product>, incoming: seq<Product>) returns (dict: seq<Product>)
    ensures dict == MergeEntries(cached, incoming)
  {
    dict := [];
    var i := 0;
    while i < |cached|
      invariant 0 <= i <= |cached|
      invariant dict == PutAll([], KeptCached(cached[..i]))
    {
      CachedDictStep(cached, i);
      if Truthy(cached[i].barcode) {
        dict := Put(dict, cached[i]);
      }
      i := i + 1;
    }
    assert cached[..i] == cached;
    var j := 0;
    while j < |incoming|
      invariant 0 <= j <= |incoming|
      invariant dict == PutAll(CachedDict(cached), KeptIncoming(incoming[..j]))
    {
      MergeStep(CachedDict(cached), incoming, j);
      if KeyOf(incoming[j]) != "" {
        dict := Put(dict, incoming[j]);
      }
      j := j + 1;
    }
    assert incoming[..j] == incoming;
  }

  // ---------------------------------------------------------------------------
  // Proof steps for the loops above

  lemma CachedDictStep(cache: seq<Product>, i: nat)
    requires i < |cache|
    ensures PutAll([], KeptCached(cache[..i + 1]))
      == if Truthy(cache[i].barcode) then Put(PutAll([], KeptCached(cache[..i])), cache[i])
         else PutAll([], KeptCached(cache[..i]))
  {
    KeptCachedStep(cache, i);
    var before := KeptCached(cache[..i]);
    var after := KeptCached(cache[..i + 1]);
    if Truthy(cache[i].barcode) {
      assert after == before + [cache[i]];
      PutAllSnoc([], before, cache[i]);
    } else {
      assert after == before;
    }
  }

  lemma MergeStep(d: seq<Product>, incoming: seq<Product>, j: nat)
    requires j < |incoming|
    ensures PutAll(d, KeptIncoming(incoming[..j + 1]))
      == if KeyOf(incoming[j]) != "" then Put(PutAll(d, KeptIncoming(incoming[..j])), incoming[j])
         else PutAll(d, KeptIncoming(incoming[..j]))
  {
    KeptIncomingStep(incoming, j);
    var before := KeptIncoming(incoming[..j]);
    var after := KeptIncoming(incoming[..j + 1]);
    if KeyOf(incoming[j]) != "" {
      assert after == before + [incoming[j]];
      PutAllSnoc(d, before, incoming[j]);
    } else {
      assert after == before;
    }
  }

  lemma PutAllSnoc(d: seq<Product>, ps: seq<Product>, p: Product)
    ensures PutAll(d, ps + [p]) == Put(PutAll(d, ps), p)
  {
    assert (ps + [p])[..|ps|] == ps;
  }

  lemma KeptCachedStep(cache: seq<Product>, i: nat)
    requires i < |cache|
    ensures KeptCached(cache[..i + 1]) == KeptCached(cache[..i]) + (if Truthy(cache[i].barcode) then [cache[i]] else [])
  {
    assert cache[..i + 1][..i] == cache[..i];
  }

  lemma KeptIncomingStep(ps: seq<Product>, i: nat)
    requires i < |ps|
    ensures KeptIncoming(ps[..i + 1]) == KeptIncoming(ps[..i]) + (if KeyOf(ps[i]) != "" then [ps[i]] else [])
  {
    assert ps[..i + 1][..i] == ps[..i];
  }

  /** A positive limit: the scan stopped at the entry that brought the matches
      to exactly the limit. */
  lemma SearchStopsAtLimit(entries: seq<Product>, query: string, limit: int, i: nat)
    requires query != "" && limit >= 1 && i <= |entries|
    requires |Matching(entries[..i], query)| == limit
    ensures Matching(entries[..i], query) == SearchResult(entries, query, limit)
  {
    MatchingPrefix(entries, query, i);
  }

  /** A limit below one: the scan stopped after the first entry. */
  lemma SearchStopsAfterFirst(entries: seq<Product>, query: string, limit: int)
    requires query != "" && limit < 1 && |entries| >= 1
    ensures Matching(entries[..1], query) == SearchResult(entries, query, limit)
  {
    MatchingStep(entries, query, 0);
    assert entries[..0] == [];
  }

  /** The scan reached the end of the cache without hitting the limit. */
  lemma SearchScansAll(entries: seq<Product>, query: string, limit: int)
    requires query != ""
    requires |entries| > 0 ==> |Matching(entries, query)| < limit
    ensures Matching(entries, query) == SearchResult(entries, query, limit)
  {
  }
}
