/**
  The per-listing body of `scrape_data` (main.py:83-123). It covers the six
  `extract_data` calls, the shared `try` block that normalises the review
  strings and derives the three commerce flags, and the opening-hours read.
  Each listing's page is an oracle of field reads. The twelve per-field lists
  are kept as they are written in the source. They are not assumed to stay the
  same length.
 */
module Listing {
  import opened Options
  import opened Strings
  import opened Extraction

  /** The reads one listing's detail view answers, in the order the source makes them. */
  datatype ListingPage = ListingPage(
    name: FieldRead,
    address: FieldRead,
    website: FieldRead,
    phone: FieldRead,
    placeType: FieldRead,
    intro: FieldRead,
    reviewCount: FieldRead,
    reviewAverage: FieldRead,
    shopInfo: FieldRead,      // the read of the first info block at line 113
    pickupInfo: FieldRead,    // the read of the same block at line 114
    deliveryInfo: FieldRead,  // the read of the same block at line 115
    opensAt: FieldRead)

  /** The twelve accumulators of lines 53-56. */
  datatype Columns = Columns(
    names: seq<string>,
    addresses: seq<string>,
    websites: seq<string>,
    phones: seq<string>,
    reviewCounts: seq<string>,
    reviewAverages: seq<string>,
    storeShopping: seq<string>,
    inStorePickup: seq<string>,
    delivery: seq<string>,
    placeTypes: seq<string>,
    opensAt: seq<string>,
    intros: seq<string>)

  const NoColumns := Columns([], [], [], [], [], [], [], [], [], [], [], [])

  /** Every accumulator has one entry per listing processed so far. */
  predicate Aligned(c: Columns)
  {
    var n := |c.names|;
    && |c.addresses| == n && |c.websites| == n && |c.phones| == n
    && |c.reviewCounts| == n && |c.reviewAverages| == n
    && |c.storeShopping| == n && |c.inStorePickup| == n && |c.delivery| == n
    && |c.placeTypes| == n && |c.opensAt| == n && |c.intros| == n
  }

  /** The bounds the try block can never cross. The review lists never run ahead
      of the names, the first two flag lists never fall behind them, and the other
      lists keep pace with them exactly. */
  predicate WithinDrift(c: Columns)
  {
    var n := |c.names|;
    && |c.addresses| == n && |c.websites| == n && |c.phones| == n
    && |c.reviewCounts| <= n && |c.reviewAverages| <= n
    && |c.storeShopping| >= n && |c.inStorePickup| >= n && |c.delivery| == n
    && |c.placeTypes| == n && |c.opensAt| == n && |c.intros| == n
  }

  /* ---------------- Review-count and rating normalisation ---------------- */

  const ReviewPunctuation: set<char> := {'(', ')', ','}

  /** Line 108: strip `(`, `)` and `,` in three successive replacements. */
  function NormalizeReviewCount(raw: string): string
  {
    Replace(Replace(Replace(raw, '(', ""), ')', ""), ',', "")
  }

  /** The review count keeps exactly the characters other than `(`, `)` and `,`,
      in order, and so contains none of them. */
  lemma ReviewCountDropsOnlyPunctuation(raw: string)
    ensures NormalizeReviewCount(raw) == Without(raw, ReviewPunctuation)
    ensures '(' !in NormalizeReviewCount(raw) && ')' !in NormalizeReviewCount(raw)
    ensures ',' !in NormalizeReviewCount(raw)
  {
    ReplaceByNothing(raw, '(');
    ReplaceByNothing(Without(raw, {'('}), ')');
    WithoutTwice(raw, {'('}, {')'});
    ReplaceByNothing(Without(raw, {'(', ')'}), ',');
    WithoutTwice(raw, {'(', ')'}, {','});
    assert {'('} + {')'} == {'(', ')'};
    assert {'(', ')'} + {','} == ReviewPunctuation;
  }

  /** Normalising a review count twice is normalising it once. */
  lemma ReviewCountIdempotent(raw: string)
    ensures NormalizeReviewCount(NormalizeReviewCount(raw)) == NormalizeReviewCount(raw)
  {
    var once := NormalizeReviewCount(raw);
    ReviewCountDropsOnlyPunctuation(raw);
    ReviewCountDropsOnlyPunctuation(once);
    WithoutAbsent(once, ReviewPunctuation);
  }

  /** Line 111: drop spaces, then turn the decimal comma into a dot. */
  function NormalizeRating(raw: string): string
  {
    Replace(Replace(raw, ' ', ""), ',', ".")
  }

  /** The rating is the input without its spaces, with each `,` read as `.`; it is
      shorter than the input by the number of spaces and holds no space or comma. */
  lemma RatingDropsSpacesAndDotsCommas(raw: string)
    ensures NormalizeRating(raw) == Substitute(Without(raw, {' '}), ',', '.')
    ensures |NormalizeRating(raw)| == |raw| - CountIn(raw, {' '})
    ensures ' ' !in NormalizeRating(raw) && ',' !in NormalizeRating(raw)
  {
    ReplaceByNothing(raw, ' ');
    ReplaceOneForOne(Without(raw, {' '}), ',', '.');
    WithoutLength(raw, {' '});
  }

  /** Normalising a rating twice is normalising it once. */
  lemma RatingIdempotent(raw: string)
    ensures NormalizeRating(NormalizeRating(raw)) == NormalizeRating(raw)
  {
    var once := NormalizeRating(raw);
    RatingDropsSpacesAndDotsCommas(raw);
    ReplaceAbsent(once, ' ', "");
    ReplaceAbsent(once, ',', ".");
  }

  /* ---------------- Commerce flags ---------------- */

  const ShopKeyword := "shop"
  const PickupKeyword := "pickup"
  const DeliveryKeyword := "delivery"

  /** Lines 113-115: `"Yes"` exactly when the info text contains the keyword as a
      case-sensitive substring, `"No"` otherwise. */
  function Flag(info: string, keyword: string): (f: string)
    ensures f == "Yes" <==> Occurs(info, keyword)
    ensures f == "No" <==> !Occurs(info, keyword)
  {
    ContainsIffOccurs(info, keyword);
    if Contains(info, keyword) then "Yes" else "No"
  }

  /** The keyword test is case-sensitive: "Shopping" has no `shop` in it. */
  lemma FlagIsCaseSensitive()
    ensures Flag("In-store shopping", ShopKeyword) == "Yes"
    ensures Flag("Shopping", ShopKeyword) == "No"
  {
    assert OccursAt("In-store shopping", ShopKeyword, 9);
    assert forall i :: 0 <= i <= 4 ==> "Shopping"[i..i + 4][0] == "Shopping"[i] != ShopKeyword[0];
    assert !Occurs("Shopping", ShopKeyword);
    ContainsIffOccurs("Shopping", ShopKeyword);
  }

  /* ---------------- The shared try block (lines 106-120) ---------------- */

  /** Where the `try` block of lines 106-115 stops. */
  datatype BlockExit =
    | RaisedAtReviewCount    // line 107
    | RaisedAtReviewAverage  // line 110
    | RaisedAtShop           // line 113
    | RaisedAtPickup         // line 114
    | RaisedAtDelivery       // line 115
    | Completed

  /** Reference definition: the first read in the block that raises. */
  function ExitOf(p: ListingPage): BlockExit
  {
    if p.reviewCount.Fault? then RaisedAtReviewCount
    else if p.reviewAverage.Fault? then RaisedAtReviewAverage
    else if !p.shopInfo.Rendered? then RaisedAtShop
    else if !p.pickupInfo.Rendered? then RaisedAtPickup
    else if !p.deliveryInfo.Rendered? then RaisedAtDelivery
    else Completed
  }

  /** The exits after which the five lists the block writes have grown in step:
      the block completed, or it raised at its first info read before any flag
      was appended. */
  predicate KeepsInStep(p: ListingPage)
  {
    ExitOf(p) in {RaisedAtShop, Completed}
  }

  /** The `except` branch: each flag list receives one `"No"`. */
  function OnFault(c: Columns): Columns
  {
    c.(storeShopping := c.storeShopping + ["No"],
       inStorePickup := c.inStorePickup + ["No"],
       delivery := c.delivery + ["No"])
  }

  /** Lines 106-120, one statement after the other, falling into the `except`
      branch at the first read that raises. Appends made before the fault stay.
      So the review lists lose the entry when an early read fails. A flag list
      whose own append already happened receives a second entry. The value
      appended for a guarded read of an absent element is the empty string. */
  function StoreInfoBlock(c: Columns, p: ListingPage): (r: Columns)
    ensures r.names == c.names && r.addresses == c.addresses && r.websites == c.websites
    ensures r.phones == c.phones && r.placeTypes == c.placeTypes && r.intros == c.intros
    ensures r.opensAt == c.opensAt
    ensures r.reviewCounts == c.reviewCounts
      + (if ExitOf(p) == RaisedAtReviewCount then []
         else [NormalizeReviewCount(GuardedText(p.reviewCount).GetOr(""))])
    ensures r.reviewAverages == c.reviewAverages
      + (if ExitOf(p) in {RaisedAtReviewCount, RaisedAtReviewAverage} then []
         else [NormalizeRating(GuardedText(p.reviewAverage).GetOr(""))])
    ensures r.storeShopping == c.storeShopping
      + (if ExitOf(p) in {RaisedAtPickup, RaisedAtDelivery, Completed}
         then [Flag(p.shopInfo.text, ShopKeyword)] else [])
      + (if ExitOf(p) == Completed then [] else ["No"])
    ensures r.inStorePickup == c.inStorePickup
      + (if ExitOf(p) in {RaisedAtDelivery, Completed}
         then [Flag(p.pickupInfo.text, PickupKeyword)] else [])
      + (if ExitOf(p) == Completed then [] else ["No"])
    ensures r.delivery == c.delivery
      + [if ExitOf(p) == Completed then Flag(p.deliveryInfo.text, DeliveryKeyword) else "No"]
  {
    match GuardedText(p.reviewCount)
    case None => OnFault(c)
    case Some(count) =>
      var c1 := c.(reviewCounts := c.reviewCounts + [NormalizeReviewCount(count)]);
      match GuardedText(p.reviewAverage)
      case None => OnFault(c1)
      case Some(average) =>
        var c2 := c1.(reviewAverages := c1.reviewAverages + [NormalizeRating(average)]);
        match UnguardedText(p.shopInfo)
        case None => OnFault(c2)
        case Some(shopText) =>
          var c3 := c2.(storeShopping := c2.storeShopping + [Flag(shopText, ShopKeyword)]);
          match UnguardedText(p.pickupInfo)
          case None => OnFault(c3)
          case Some(pickupText) =>
            var c4 := c3.(inStorePickup := c3.inStorePickup + [Flag(pickupText, PickupKeyword)]);
            match UnguardedText(p.deliveryInfo)
            case None => OnFault(c4)
            case Some(deliveryText) =>
              c4.(delivery := c4.delivery + [Flag(deliveryText, DeliveryKeyword)])
  }

  /** A review count whose element is absent is recorded as "". */
  lemma MissingReviewCountRecordsEmpty(c: Columns, p: ListingPage)
    requires p.reviewCount.Missing?
    ensures StoreInfoBlock(c, p).reviewCounts == c.reviewCounts + [""]
  {
  }

  /** A rating whose element is absent is recorded as "", provided the block got
      that far: a review-count read that raises skips the rating read. */
  lemma MissingRatingRecordsEmpty(c: Columns, p: ListingPage)
    requires !p.reviewCount.Fault? && p.reviewAverage.Missing?
    ensures StoreInfoBlock(c, p).reviewAverages == c.reviewAverages + [""]
  {
  }

  /** The try block keeps the five lists it writes in step with each other
      exactly when it completes or fails at its first info read. */
  lemma StoreInfoBlockAlignedIff(c: Columns, p: ListingPage)
    requires |c.reviewCounts| == |c.reviewAverages| == |c.storeShopping|
    requires |c.storeShopping| == |c.inStorePickup| == |c.delivery|
    ensures var r := StoreInfoBlock(c, p);
      (|r.reviewCounts| == |r.reviewAverages| == |r.storeShopping| == |r.inStorePickup| == |r.delivery|)
      <==> KeepsInStep(p)
  {
  }

  /* ---------------- One listing, and all of them ---------------- */

  /** Lines 98-123 for one listing. None when the opening-hours read at line 122,
      which lies outside any `try`, raises and aborts the scrape. */
  function ProcessListing(c: Columns, p: ListingPage): (r: Option<Columns>)
    ensures r.Some? <==> !p.opensAt.Fault?
    ensures r.Some? ==> r.value.names == ExtractData(c.names, p.name)
    ensures r.Some? ==> r.value.addresses == ExtractData(c.addresses, p.address)
    ensures r.Some? ==> r.value.websites == ExtractData(c.websites, p.website)
    ensures r.Some? ==> r.value.phones == ExtractData(c.phones, p.phone)
    ensures r.Some? ==> r.value.placeTypes == ExtractData(c.placeTypes, p.placeType)
    ensures r.Some? ==> r.value.intros == ExtractData(c.intros, p.intro)
    ensures r.Some? ==> r.value.opensAt == c.opensAt + [GuardedText(p.opensAt).value]
    ensures r.Some? ==> |r.value.storeShopping| > |c.storeShopping|
    ensures r.Some? ==> |r.value.inStorePickup| > |c.inStorePickup|
    ensures r.Some? ==> |r.value.delivery| == |c.delivery| + 1
    ensures r.Some? ==> var s := StoreInfoBlock(c, p);
      && r.value.reviewCounts == s.reviewCounts && r.value.reviewAverages == s.reviewAverages
      && r.value.storeShopping == s.storeShopping && r.value.inStorePickup == s.inStorePickup
      && r.value.delivery == s.delivery
  {
    var extracted := c.(
      names := ExtractData(c.names, p.name),
      addresses := ExtractData(c.addresses, p.address),
      websites := ExtractData(c.websites, p.website),
      phones := ExtractData(c.phones, p.phone),
      placeTypes := ExtractData(c.placeTypes, p.placeType),
      intros := ExtractData(c.intros, p.intro));
    var stored := StoreInfoBlock(extracted, p);
    match GuardedText(p.opensAt)
    case None => None
    case Some(hours) => Some(stored.(opensAt := stored.opensAt + [hours]))
  }

  /** Line 83: the listings in discovery order. None when any listing aborts. */
  function ProcessListings(c: Columns, pages: seq<ListingPage>): (r: Option<Columns>)
    ensures r.Some? <==> forall k :: 0 <= k < |pages| ==> !pages[k].opensAt.Fault?
    ensures r.Some? ==> |r.value.names| == |c.names| + |pages|
    decreases |pages|
  {
    if pages == [] then Some(c)
    else match ProcessListing(c, pages[0])
      case None => None
      case Some(next) =>
        assert forall k :: 1 <= k < |pages| ==> pages[1..][k - 1] == pages[k];
        ProcessListings(next, pages[1..])
  }

  /** The six fields read through `extract_data` (lines 98-103). */
  datatype ExtractedField = Name | Address | Website | Phone | PlaceType | Intro

  function ReadOf(p: ListingPage, f: ExtractedField): FieldRead
  {
    match f
    case Name => p.name
    case Address => p.address
    case Website => p.website
    case Phone => p.phone
    case PlaceType => p.placeType
    case Intro => p.intro
  }

  function ColumnOf(c: Columns, f: ExtractedField): seq<string>
  {
    match f
    case Name => c.names
    case Address => c.addresses
    case Website => c.websites
    case Phone => c.phones
    case PlaceType => c.placeTypes
    case Intro => c.intros
  }

  /** Reference definition: the values `extract_data` records for field `f` of
      each listing, in order. */
  function Recorded(pages: seq<ListingPage>, f: ExtractedField): seq<string>
    decreases |pages|
  {
    if pages == [] then [] else [FieldValue(ReadOf(pages[0], f))] + Recorded(pages[1..], f)
  }

  /** Every `extract_data` column receives, at each listing's own position after
      what was already there, exactly the value read for that listing. */
  lemma {:induction false} ProcessListingsRecordsEveryListing(c: Columns, pages: seq<ListingPage>, f: ExtractedField)
    requires ProcessListings(c, pages).Some?
    ensures ColumnOf(ProcessListings(c, pages).value, f) == ColumnOf(c, f) + Recorded(pages, f)
    decreases |pages|
  {
    if pages != [] {
      var next := ProcessListing(c, pages[0]).value;
      assert ProcessListings(c, pages) == ProcessListings(next, pages[1..]);
      ProcessListingRecords(c, pages[0], f);
      ProcessListingsRecordsEveryListing(next, pages[1..], f);
      assert Recorded(pages, f) == [FieldValue(ReadOf(pages[0], f))] + Recorded(pages[1..], f);
    }
  }

  /** One listing appends the value read for field `f` to its column. */
  lemma ProcessListingRecords(c: Columns, p: ListingPage, f: ExtractedField)
    requires ProcessListing(c, p).Some?
    ensures ColumnOf(ProcessListing(c, p).value, f) == ColumnOf(c, f) + [FieldValue(ReadOf(p, f))]
  {
  }

  /** Reference definition: the opening hours recorded for each listing, in
      order; an absent element reads as "" (line 122). */
  function Hours(pages: seq<ListingPage>): seq<string>
    decreases |pages|
  {
    if pages == [] then [] else [GuardedText(pages[0].opensAt).GetOr("")] + Hours(pages[1..])
  }

  /** The opening-hours column ends with each listing's hours, in discovery order. */
  lemma {:induction false} ProcessListingsRecordsHours(c: Columns, pages: seq<ListingPage>)
    requires ProcessListings(c, pages).Some?
    ensures ProcessListings(c, pages).value.opensAt == c.opensAt + Hours(pages)
    decreases |pages|
  {
    if pages != [] {
      var next := ProcessListing(c, pages[0]).value;
      assert ProcessListings(c, pages) == ProcessListings(next, pages[1..]);
      ProcessListingsRecordsHours(next, pages[1..]);
      AppendAssociates(c.opensAt, [GuardedText(pages[0].opensAt).GetOr("")], Hours(pages[1..]));
    }
  }

  /** The five lists the try block writes. */
  datatype BlockList = ReviewCounts | ReviewAverages | StoreShopping | InStorePickup | Delivery

  function BlockColumn(c: Columns, b: BlockList): seq<string>
  {
    match b
    case ReviewCounts => c.reviewCounts
    case ReviewAverages => c.reviewAverages
    case StoreShopping => c.storeShopping
    case InStorePickup => c.inStorePickup
    case Delivery => c.delivery
  }

  /** The value a listing whose try block keeps in step stores in list `b`: the
      normalised review count or rating, and for a flag list its flag when the
      block completed or "No" when it raised at its first info read. */
  function BlockValue(p: ListingPage, b: BlockList): string
  {
    match b
    case ReviewCounts => NormalizeReviewCount(GuardedText(p.reviewCount).GetOr(""))
    case ReviewAverages => NormalizeRating(GuardedText(p.reviewAverage).GetOr(""))
    case StoreShopping =>
      if ExitOf(p) == Completed then Flag(p.shopInfo.text, ShopKeyword) else "No"
    case InStorePickup =>
      if ExitOf(p) == Completed then Flag(p.pickupInfo.text, PickupKeyword) else "No"
    case Delivery =>
      if ExitOf(p) == Completed then Flag(p.deliveryInfo.text, DeliveryKeyword) else "No"
  }

  /** Reference definition: the values stored in list `b` for each listing, in order. */
  function BlockRecorded(pages: seq<ListingPage>, b: BlockList): seq<string>
    decreases |pages|
  {
    if pages == [] then [] else [BlockValue(pages[0], b)] + BlockRecorded(pages[1..], b)
  }

  /** One listing whose try block keeps in step appends its own value to list `b`. */
  lemma ProcessListingStoresBlock(c: Columns, p: ListingPage, b: BlockList)
    requires ProcessListing(c, p).Some? && KeepsInStep(p)
    ensures BlockColumn(ProcessListing(c, p).value, b) == BlockColumn(c, b) + [BlockValue(p, b)]
  {
  }

  lemma AppendAssociates<T>(a: seq<T>, b: seq<T>, c: seq<T>)
    ensures a + b + c == a + (b + c)
  {
  }

  /** When every listing's try block keeps in step, each of the five block lists
      ends with each listing's own value, in discovery order. */
  lemma {:induction false} ProcessListingsRecordsBlock(c: Columns, pages: seq<ListingPage>, b: BlockList)
    requires ProcessListings(c, pages).Some?
    requires forall k :: 0 <= k < |pages| ==> KeepsInStep(pages[k])
    ensures BlockColumn(ProcessListings(c, pages).value, b) == BlockColumn(c, b) + BlockRecorded(pages, b)
    decreases |pages|
  {
    if pages != [] {
      var next := ProcessListing(c, pages[0]).value;
      assert ProcessListings(c, pages) == ProcessListings(next, pages[1..]);
      ProcessListingStoresBlock(c, pages[0], b);
      forall k | 0 <= k < |pages[1..]| ensures KeepsInStep(pages[1..][k]) {
        assert pages[1..][k] == pages[k + 1];
      }
      ProcessListingsRecordsBlock(next, pages[1..], b);
      var v, rest := BlockValue(pages[0], b), BlockRecorded(pages[1..], b);
      assert BlockRecorded(pages, b) == [v] + rest;
      AppendAssociates(BlockColumn(c, b), [v], rest);
    }
  }

  /** One listing keeps the accumulators aligned exactly when its try block
      completes or fails at its first info read; a listing never repairs a
      misalignment left by an earlier one. */
  lemma ListingAlignment(c: Columns, p: ListingPage)
    requires ProcessListing(c, p).Some?
    ensures Aligned(c) ==> (Aligned(ProcessListing(c, p).value) <==> KeepsInStep(p))
    ensures WithinDrift(c) ==> WithinDrift(ProcessListing(c, p).value)
    ensures WithinDrift(c) && !Aligned(c) ==> !Aligned(ProcessListing(c, p).value)
  {
  }

  /** Every listing keeps the lists in step exactly when the first one does and
      every later one does. */
  lemma AllKeepInStepSplits(pages: seq<ListingPage>)
    requires pages != []
    ensures (forall k :: 0 <= k < |pages| ==> KeepsInStep(pages[k]))
      <==> KeepsInStep(pages[0]) && (forall k :: 0 <= k < |pages[1..]| ==> KeepsInStep(pages[1..][k]))
  {
    assert forall k :: 1 <= k < |pages| ==> pages[1..][k - 1] == pages[k];
  }

  /** Once the accumulators are misaligned, no later listing realigns them. */
  lemma {:induction false} MisalignmentPersists(c: Columns, pages: seq<ListingPage>)
    requires ProcessListings(c, pages).Some?
    requires WithinDrift(c) && !Aligned(c)
    ensures !Aligned(ProcessListings(c, pages).value)
    decreases |pages|
  {
    if pages != [] {
      var next := ProcessListing(c, pages[0]).value;
      assert ProcessListings(c, pages) == ProcessListings(next, pages[1..]);
      ListingAlignment(c, pages[0]);
      MisalignmentPersists(next, pages[1..]);
    }
  }

  /** Starting aligned, the accumulators end aligned exactly when no listing's
      try block failed part-way; otherwise they can no longer form a table. */
  lemma {:induction false} ProcessListingsAlignedIff(c: Columns, pages: seq<ListingPage>)
    requires ProcessListings(c, pages).Some?
    requires WithinDrift(c)
    ensures Aligned(c) ==> (Aligned(ProcessListings(c, pages).value)
      <==> forall k :: 0 <= k < |pages| ==> KeepsInStep(pages[k]))
    ensures !Aligned(c) ==> !Aligned(ProcessListings(c, pages).value)
    decreases |pages|
  {
    if !Aligned(c) {
      MisalignmentPersists(c, pages);
    } else if pages != [] {
      var next := ProcessListing(c, pages[0]).value;
      assert ProcessListings(c, pages) == ProcessListings(next, pages[1..]);
      ListingAlignment(c, pages[0]);
      AllKeepInStepSplits(pages);
      if KeepsInStep(pages[0]) {
        ProcessListingsAlignedIff(next, pages[1..]);
      } else {
        MisalignmentPersists(next, pages[1..]);
      }
    }
  }
}
