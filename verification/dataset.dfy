/**
  The table `scrape_data` builds from its accumulators (main.py:126-134) and its
  deduplication on (Names, Phone Number, Address), keeping the first occurrence
  of each key. `ScrapeData` composes discovery, the per-listing body and this step.
 */
module Dataset {
  import opened Options
  import opened Extraction
  import opened Pagination
  import opened Listing

  /** One table row, with columns in the order of lines 127-131. */
  datatype Row = Row(
    names: string,
    website: string,
    introduction: string,
    phoneNumber: string,
    address: string,
    reviewCount: string,
    averageReviewCount: string,
    storeShopping: string,
    inStorePickup: string,
    delivery: string,
    placeType: string,
    opensAt: string)

  /** The deduplication key of line 134. */
  datatype Key = Key(names: string, phoneNumber: string, address: string)

  function KeyOf(r: Row): Key
  {
    Key(r.names, r.phoneNumber, r.address)
  }

  function KeysOf(rows: seq<Row>): set<Key>
  {
    set r | r in rows :: KeyOf(r)
  }

  /** No two rows share a key. */
  ghost predicate DistinctKeys(rows: seq<Row>)
  {
    forall i, j :: 0 <= i < j < |rows| ==> KeyOf(rows[i]) != KeyOf(rows[j])
  }

  /** Row `i` is the first row carrying its key. */
  ghost predicate FirstOccurrence(rows: seq<Row>, i: int)
  {
    0 <= i < |rows| && KeyOf(rows[i]) !in KeysOf(rows[..i])
  }

  /** Lines 126-132: the frame constructor raises unless every column has the
      same length; otherwise row `k` is position `k` of every column. */
  function Frame(c: Columns): (rows: Option<seq<Row>>)
    ensures rows.Some? <==> Aligned(c)
    ensures rows.Some? ==> |rows.value| == |c.names|
    ensures rows.Some? ==> forall k :: 0 <= k < |rows.value| ==>
      KeyOf(rows.value[k]) == Key(c.names[k], c.phones[k], c.addresses[k])
  {
    if !Aligned(c) then None
    else Some(seq(|c.names|, k requires 0 <= k < |c.names| =>
      Row(c.names[k], c.websites[k], c.intros[k], c.phones[k], c.addresses[k],
          c.reviewCounts[k], c.reviewAverages[k], c.storeShopping[k], c.inStorePickup[k],
          c.delivery[k], c.placeTypes[k], c.opensAt[k])))
  }

  /** The table read back column by column, as `df[name].tolist()` would. */
  function ToColumns(rows: seq<Row>): Columns
  {
    Columns(
      seq(|rows|, k requires 0 <= k < |rows| => rows[k].names),
      seq(|rows|, k requires 0 <= k < |rows| => rows[k].address),
      seq(|rows|, k requires 0 <= k < |rows| => rows[k].website),
      seq(|rows|, k requires 0 <= k < |rows| => rows[k].phoneNumber),
      seq(|rows|, k requires 0 <= k < |rows| => rows[k].reviewCount),
      seq(|rows|, k requires 0 <= k < |rows| => rows[k].averageReviewCount),
      seq(|rows|, k requires 0 <= k < |rows| => rows[k].storeShopping),
      seq(|rows|, k requires 0 <= k < |rows| => rows[k].inStorePickup),
      seq(|rows|, k requires 0 <= k < |rows| => rows[k].delivery),
      seq(|rows|, k requires 0 <= k < |rows| => rows[k].placeType),
      seq(|rows|, k requires 0 <= k < |rows| => rows[k].opensAt),
      seq(|rows|, k requires 0 <= k < |rows| => rows[k].introduction))
  }

  /** Every column of the table is exactly the list it was built from: row `k`
      holds the `k`-th entry of each of the twelve lists, so no value moves to
      another column or another row. */
  lemma FrameKeepsColumns(c: Columns)
    requires Aligned(c)
    ensures Frame(c).Some? && ToColumns(Frame(c).value) == c
  {
  }

  /** Any table is the frame of its own columns. */
  lemma FrameOfColumns(rows: seq<Row>)
    ensures Frame(ToColumns(rows)) == Some(rows)
  {
    var c := ToColumns(rows);
    assert Aligned(c);
    assert Frame(c).value == rows;
  }

  lemma KeysOfSnoc(rows: seq<Row>, r: Row)
    ensures KeysOf(rows + [r]) == KeysOf(rows) + {KeyOf(r)}
  {
  }

  /** Line 134: walk the rows in order and keep a row only when no earlier row
      carries its key. The result covers every key of the input exactly once. */
  function DropDuplicates(rows: seq<Row>): (kept: seq<Row>)
    ensures KeysOf(kept) == KeysOf(rows)
    ensures DistinctKeys(kept)
    ensures |kept| <= |rows|
    decreases |rows|
  {
    if rows == [] then []
    else
      var earlier := rows[..|rows| - 1];
      var last := rows[|rows| - 1];
      var prior := DropDuplicates(earlier);
      assert rows == earlier + [last];
      KeysOfSnoc(earlier, last);
      if KeyOf(last) in KeysOf(earlier) then prior
      else
        KeysOfSnoc(prior, last);
        assert forall i :: 0 <= i < |prior| ==> prior[i] in prior;
        prior + [last]
  }

  /** Reference definition: the positions of the rows that are the first with their key. */
  function KeptPositions(rows: seq<Row>): seq<nat>
    decreases |rows|
  {
    if rows == [] then []
    else
      var earlier := rows[..|rows| - 1];
      KeptPositions(earlier) + (if KeyOf(rows[|rows| - 1]) in KeysOf(earlier) then [] else [|rows| - 1])
  }

  /** The deduplicated table is the input restricted to the first occurrence of
      every key. It keeps those rows in their input order and leaves out
      every later repeat. */
  lemma {:induction false} DropDuplicatesKeepsFirstOccurrences(rows: seq<Row>)
    ensures var kept := DropDuplicates(rows); var pos := KeptPositions(rows);
      && |pos| == |kept|
      && (forall k :: 0 <= k < |pos| ==> pos[k] < |rows| && kept[k] == rows[pos[k]])
      && (forall k, l :: 0 <= k < l < |pos| ==> pos[k] < pos[l])
      && (forall i :: i in pos <==> FirstOccurrence(rows, i))
  {
    DropDuplicatesPicksKeptPositions(rows);
    KeptPositionsAreFirstOccurrences(rows);
  }

  /** Row `k` of the deduplicated table is the input row at the `k`-th kept
      position, and those positions increase. */
  lemma {:induction false} DropDuplicatesPicksKeptPositions(rows: seq<Row>)
    ensures var kept := DropDuplicates(rows); var pos := KeptPositions(rows);
      && |pos| == |kept|
      && (forall k :: 0 <= k < |pos| ==> pos[k] < |rows| && kept[k] == rows[pos[k]])
      && (forall k, l :: 0 <= k < l < |pos| ==> pos[k] < pos[l])
    decreases |rows|
  {
    if rows != [] {
      var n := |rows| - 1;
      var earlier := rows[..n];
      var last := rows[n];
      DropDuplicatesPicksKeptPositions(earlier);
      var kept0, pos0 := DropDuplicates(earlier), KeptPositions(earlier);
      assert forall k :: 0 <= k < |pos0| ==> rows[pos0[k]] == earlier[pos0[k]];
      if KeyOf(last) !in KeysOf(earlier) {
        assert DropDuplicates(rows) == kept0 + [last] && KeptPositions(rows) == pos0 + [n];
      }
    }
  }

  /** The kept positions are exactly the first occurrences. */
  lemma {:induction false} KeptPositionsAreFirstOccurrences(rows: seq<Row>)
    ensures forall i :: i in KeptPositions(rows) <==> FirstOccurrence(rows, i)
    decreases |rows|
  {
    if rows != [] {
      var n := |rows| - 1;
      var earlier := rows[..n];
      KeptPositionsAreFirstOccurrences(earlier);
      FirstOccurrenceOfPrefix(rows);
      assert forall i :: i in KeptPositions(earlier) ==> 0 <= i < n;
    }
  }

  /** Whether a row is a first occurrence does not depend on the rows after it. */
  lemma FirstOccurrenceOfPrefix(rows: seq<Row>)
    requires rows != []
    ensures forall i :: 0 <= i < |rows| - 1 ==>
      (FirstOccurrence(rows, i) <==> FirstOccurrence(rows[..|rows| - 1], i))
    ensures FirstOccurrence(rows, |rows| - 1) <==> KeyOf(rows[|rows| - 1]) !in KeysOf(rows[..|rows| - 1])
  {
  }

  /** Rows whose keys are already distinct pass through unchanged. */
  lemma {:induction false} DropDuplicatesOfDistinct(rows: seq<Row>)
    requires DistinctKeys(rows)
    ensures DropDuplicates(rows) == rows
    decreases |rows|
  {
    if rows != [] {
      var n := |rows| - 1;
      var earlier := rows[..n];
      assert DistinctKeys(earlier);
      DropDuplicatesOfDistinct(earlier);
      forall r | r in earlier ensures KeyOf(r) != KeyOf(rows[n]) {
        var i :| 0 <= i < n && earlier[i] == r;
        assert rows[i] == r;
      }
      assert rows == earlier + [rows[n]];
    }
  }

  /** Deduplicating twice is deduplicating once. */
  lemma {:induction false} DropDuplicatesIdempotent(rows: seq<Row>)
    ensures DropDuplicates(DropDuplicates(rows)) == DropDuplicates(rows)
  {
    DropDuplicatesOfDistinct(DropDuplicates(rows));
  }

  /** How one run of `scrape_data` ends. */
  datatype ScrapeOutcome =
    | Scraped(rows: seq<Row>)   // the deduplicated table that is written out and returned
    | SearchTimedOut            // the wait at line 71 raised
    | NeverSettled              // the observations ran out while the loop would go on
    | ListingRaised             // an opening-hours read at line 122 raised
    | ColumnsMisaligned         // the frame constructor at line 126 raised

  /** The page of each listing handle, in discovery order (line 83). */
  function Visit<A>(handles: seq<Handle<A>>, visit: Handle<A> -> ListingPage): seq<ListingPage>
  {
    seq(|handles|, k requires 0 <= k < |handles| => visit(handles[k]))
  }

  /** `scrape_data` with the browser abstracted: `polls` answers the pagination
      loop and `visit` answers the reads of each listing handle it returns. */
  function ScrapeData<A>(polls: seq<Poll<A>>, total: nat, visit: Handle<A> -> ListingPage): (o: ScrapeOutcome)
    ensures o.Scraped? ==> |o.rows| <= total && DistinctKeys(o.rows)
  {
    match Discover(polls, total)
    case WaitTimedOut => SearchTimedOut
    case StillGrowing(_) => NeverSettled
    case Listings(handles) =>
      match ProcessListings(NoColumns, Visit(handles, visit))
      case None => ListingRaised
      case Some(c) =>
        match Frame(c)
        case None => ColumnsMisaligned
        case Some(rows) => Scraped(DropDuplicates(rows))
  }

  /** The table is misaligned exactly when no visited listing aborted but some
      listing's try block failed part-way (lines 106-120 are not atomic). */
  lemma ScrapeMisalignedIff<A>(polls: seq<Poll<A>>, total: nat, visit: Handle<A> -> ListingPage)
    requires Discover(polls, total).Listings?
    ensures var pages := Visit(Discover(polls, total).handles, visit);
      (ScrapeData(polls, total, visit) == ColumnsMisaligned) <==>
        && (forall k :: 0 <= k < |pages| ==> !pages[k].opensAt.Fault?)
        && (exists k :: 0 <= k < |pages| && !KeepsInStep(pages[k]))
  {
    var pages := Visit(Discover(polls, total).handles, visit);
    assert Aligned(NoColumns) && WithinDrift(NoColumns);
    match ProcessListings(NoColumns, pages)
    case None =>
      assert ScrapeData(polls, total, visit) == ListingRaised;
    case Some(c) =>
      ProcessListingsAlignedIff(NoColumns, pages);
      assert ScrapeData(polls, total, visit) == ColumnsMisaligned <==> !Aligned(c);
  }
}
