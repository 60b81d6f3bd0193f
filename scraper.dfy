/**
 * The pipeline of scraper.js: take the anchor texts of the listing grid,
 * keep those that are application numbers, fetch each one's detail page,
 * build the development application and insert it into the `data` table.
 * The network and the HTML selectors are parameters: `fetch` gives the
 * description and lodgement-date texts that the selectors would extract
 * from the page at a URL, or `None` when the request fails.
 */
module Scraper {
  import opened Wrappers
  import opened Text
  import opened Reference
  import opened Uri
  import opened Dates
  import opened Store

  const ListingUrl: string :=
    "https://eproperty.mitchamcouncil.sa.gov.au/T1PRProd/WebApps/eProperty/P1/eTrack/eTrackApplicationSearchResults.aspx?Field=S&Period=L28&r=P1.WEBGUEST&f=%24P1.ETR.SEARCH.SL28"

  const DetailBase: string :=
    "https://eproperty.mitchamcouncil.sa.gov.au/T1PRProd/WebApps/eProperty/P1/eTrack/eTrackApplicationDetails.aspx?r=P1.WEBGUEST&f=%24P1.ETR.APPDET.VIW&ApplicationId="

  const CommentUrl: string := "mailto:mitcham@mitchamcouncil.sa.gov.au"

  lemma ApplicationNumberIsAscii(s: string)
    requires IsApplicationNumber(s)
    ensures AllAscii(s)
    ensures forall i :: 0 <= i < |s| ==> IsDigit(s[i]) || s[i] == '/'
  {
  }

  /** The detail-page URL: the fixed base followed by the percent-encoded number. */
  function DetailUrl(applicationNumber: string): (url: string)
    requires IsApplicationNumber(applicationNumber)
  {
    ApplicationNumberIsAscii(applicationNumber);
    DetailBase + EncodeComponent(applicationNumber)
  }

  /** Only the two slashes of the number are escaped, each as `%2F`. */
  lemma DetailUrlEscapesSlashes(applicationNumber: string)
    requires IsApplicationNumber(applicationNumber)
    ensures DetailUrl(applicationNumber) == DetailBase + EscapeSlashes(applicationNumber)
  {
    ApplicationNumberIsAscii(applicationNumber);
    EncodeDigitsAndSlashes(applicationNumber);
  }

  /** Decoding what follows the base gives the application number back. */
  lemma DetailUrlDecodes(applicationNumber: string)
    requires IsApplicationNumber(applicationNumber)
    ensures |DetailBase| <= |DetailUrl(applicationNumber)|
    ensures DecodeComponent(DetailUrl(applicationNumber)[|DetailBase|..]) == Some(applicationNumber)
  {
    ApplicationNumberIsAscii(applicationNumber);
    DecodeEncode(applicationNumber);
    var url := DetailUrl(applicationNumber);
    assert url[|DetailBase|..] == EncodeComponent(applicationNumber);
  }

  /** Distinct application numbers have distinct detail pages. */
  lemma DetailUrlInjective(a: string, b: string)
    requires IsApplicationNumber(a) && IsApplicationNumber(b)
    requires DetailUrl(a) == DetailUrl(b)
    ensures a == b
  {
    DetailUrlDecodes(a);
    DetailUrlDecodes(b);
  }

  /** What the selectors extract from a detail page, before trimming. */
  datatype DetailTexts = DetailTexts(description: string, lodgementDate: string)

  /** The request for a detail page and the selectors run on its body; `None` when the request fails. */
  type Fetcher = string -> Option<DetailTexts>

  /** The object passed to `insertRow`. */
  function BuildApplication(applicationNumber: string, detail: DetailTexts, today: CalendarDate): DevelopmentApplication
    requires IsApplicationNumber(applicationNumber)
  {
    DevelopmentApplication(
      applicationNumber,
      "",
      Trim(detail.description),
      DetailUrl(applicationNumber),
      CommentUrl,
      FormatIsoDate(today),
      ReceivedDateText(Trim(detail.lodgementDate)))
  }

  /**
   * A built application has an empty address, the trimmed description, the
   * detail URL of the same number, the fixed comment address, the scrape
   * date in ISO form, and the ISO form of the parsed lodgement date, or
   * moment's invalid-date text exactly when the trimmed lodgement text does
   * not parse.
   */
  lemma BuiltApplicationFields(applicationNumber: string, detail: DetailTexts, today: CalendarDate)
    requires IsApplicationNumber(applicationNumber)
    ensures var app := BuildApplication(applicationNumber, detail, today);
      && app.applicationNumber == applicationNumber && app.address == ""
      && app.reason == Trim(detail.description)
      && app.informationUrl == DetailUrl(applicationNumber)
      && app.commentUrl == CommentUrl
      && app.scrapeDate == FormatIsoDate(today) && IsIsoDateText(app.scrapeDate)
      && (app.receivedDate == InvalidDate <==> ParseLodgementDate(Trim(detail.lodgementDate)).None?)
      && (ParseLodgementDate(Trim(detail.lodgementDate)).Some? ==>
            app.receivedDate == FormatIsoDate(ParseLodgementDate(Trim(detail.lodgementDate)).value))
  {
  }

  /** The nine columns of a built row, in schema order. */
  lemma BuiltRowColumns(applicationNumber: string, detail: DetailTexts, today: CalendarDate)
    requires IsApplicationNumber(applicationNumber)
    ensures var row := RowOf(BuildApplication(applicationNumber, detail, today));
      && Cell(row, Store.CouncilReference) == Some(applicationNumber)
      && Cell(row, Store.Address) == Some("")
      && Cell(row, Description) == Some(Trim(detail.description))
      && Cell(row, InfoUrl) == Some(DetailUrl(applicationNumber))
      && Cell(row, Store.CommentUrl) == Some(CommentUrl)
      && Cell(row, DateScraped) == Some(FormatIsoDate(today))
      && Cell(row, DateReceived) == Some(ReceivedDateText(Trim(detail.lodgementDate)))
      && Cell(row, OnNoticeFrom) == None && Cell(row, OnNoticeTo) == None
  {
    RowColumns(BuildApplication(applicationNumber, detail, today));
  }

  /** What became of one anchor. */
  datatype Outcome = NotAnApplication | FetchFailed | Inserted | AlreadyStored

  /** Whether an anchor names an application whose detail page could be fetched. */
  predicate Fetched(anchorText: string, fetch: Fetcher) {
    IsApplicationNumber(Trim(anchorText)) && fetch(DetailUrl(Trim(anchorText))).Some?
  }

  /** One run of the callback given to `each`, on the table as it stands. */
  function ProcessAnchor(table: Table, anchorText: string, fetch: Fetcher, today: CalendarDate): (Table, Outcome) {
    var number := Trim(anchorText);
    if !IsApplicationNumber(number) then (table, NotAnApplication)
    else match fetch(DetailUrl(number))
      case None => (table, FetchFailed)
      case Some(detail) =>
        var (t, changes) := InsertOrIgnore(table, BuildApplication(number, detail, today));
        (t, if changes > 0 then Inserted else AlreadyStored)
  }

  /** The row a run writes for a new application number. */
  function FetchedRow(number: string, fetch: Fetcher, today: CalendarDate): Row
    requires IsApplicationNumber(number) && fetch(DetailUrl(number)).Some?
  {
    RowOf(BuildApplication(number, fetch(DetailUrl(number)).value, today))
  }

  /** The outcome is decided by the anchor text, the fetch and whether the number is already stored. */
  lemma ProcessAnchorOutcome(table: Table, anchorText: string, fetch: Fetcher, today: CalendarDate)
    ensures var outcome := ProcessAnchor(table, anchorText, fetch, today).1;
      && (outcome == NotAnApplication <==> !IsApplicationNumber(Trim(anchorText)))
      && (outcome == FetchFailed <==> IsApplicationNumber(Trim(anchorText)) && !Fetched(anchorText, fetch))
      && (outcome == Inserted <==> Fetched(anchorText, fetch) && Trim(anchorText) !in table)
  {
  }

  /**
   * Rows already stored stay as they were; a fetched number is present
   * afterwards; the table grows by that one key when the outcome is
   * `Inserted` and is untouched otherwise.
   */
  lemma ProcessAnchorKeepsRows(table: Table, anchorText: string, fetch: Fetcher, today: CalendarDate)
    ensures var (t, outcome) := ProcessAnchor(table, anchorText, fetch, today);
      && (forall k :: k in table ==> k in t && t[k] == table[k])
      && (Fetched(anchorText, fetch) ==> Trim(anchorText) in t)
      && (outcome == Inserted ==> t.Keys == table.Keys + {Trim(anchorText)})
      && (outcome != Inserted ==> t == table)
  {
  }

  /** A key that was not stored before is the fetched number, holding the row built from its page. */
  lemma ProcessAnchorNewRow(table: Table, anchorText: string, fetch: Fetcher, today: CalendarDate)
    ensures var t := ProcessAnchor(table, anchorText, fetch, today).0;
      && (forall k :: k in t && k !in table ==>
            k == Trim(anchorText) && Fetched(anchorText, fetch) && t[k] == FetchedRow(k, fetch, today))
      && (WellFormed(table) ==> WellFormed(t))
  {
  }

  /** A step of the listing loop: the table before, one anchor, the table after and the outcome. */
  type Step = (Table, string) -> (Table, Outcome)

  /** The anchors processed one after another, in document order, by `step`. */
  function Fold(table: Table, anchors: seq<string>, step: Step): (r: (Table, seq<Outcome>))
    ensures |r.1| == |anchors|
    decreases |anchors|
  {
    if anchors == [] then (table, [])
    else
      var (t, outcomes) := Fold(table, anchors[..|anchors| - 1], step);
      var (t', outcome) := step(t, anchors[|anchors| - 1]);
      (t', outcomes + [outcome])
  }

  /** Folding over a listing is folding over a prefix, then over the rest from where the prefix left off. */
  lemma {:induction false} FoldSplit(table: Table, anchors: seq<string>, j: nat, step: Step)
    requires j <= |anchors|
    ensures var prefix := Fold(table, anchors[..j], step);
      var rest := Fold(prefix.0, anchors[j..], step);
      Fold(table, anchors, step) == (rest.0, prefix.1 + rest.1)
    decreases |anchors|
  {
    var prefix := Fold(table, anchors[..j], step);
    if j == |anchors| {
      assert anchors[..j] == anchors;
      assert anchors[j..] == [];
      assert prefix.1 + [] == prefix.1;
    } else {
      var init, last := anchors[..|anchors| - 1], anchors[|anchors| - 1];
      var tail := anchors[j..];
      FoldSplit(table, init, j, step);
      assert init[..j] == anchors[..j];
      assert tail[..|tail| - 1] == init[j..] && tail[|tail| - 1] == last;
      var rest := Fold(prefix.0, init[j..], step);
      assert prefix.1 + rest.1 + [step(rest.0, last).1] == prefix.1 + (rest.1 + [step(rest.0, last).1]);
    }
  }

  /** The i-th outcome is that of the i-th anchor on the table left by the anchors before it. */
  lemma FoldAt(table: Table, anchors: seq<string>, i: nat, step: Step)
    requires i < |anchors|
    ensures var after := step(Fold(table, anchors[..i], step).0, anchors[i]);
      && Fold(table, anchors, step).1[i] == after.1
      && Fold(table, anchors[..i + 1], step).0 == after.0
  {
    FoldSplit(table, anchors, i + 1, step);
    assert anchors[..i + 1][..i] == anchors[..i];
    assert anchors[..i + 1][i] == anchors[i];
  }

  function AnchorStep(fetch: Fetcher, today: CalendarDate): Step {
    (table, anchorText) => ProcessAnchor(table, anchorText, fetch, today)
  }

  /** The loop of `main` over the anchor texts of the listing grid. */
  function ProcessListing(table: Table, anchors: seq<string>, fetch: Fetcher, today: CalendarDate): (Table, seq<Outcome>) {
    Fold(table, anchors, AnchorStep(fetch, today))
  }

  /** The last anchor is processed on the table left by the ones before it. */
  lemma ListingLast(table: Table, anchors: seq<string>, fetch: Fetcher, today: CalendarDate)
    requires anchors != []
    ensures var (t, outcomes) := ProcessListing(table, anchors[..|anchors| - 1], fetch, today);
      var (t', outcome) := ProcessAnchor(t, anchors[|anchors| - 1], fetch, today);
      ProcessListing(table, anchors, fetch, today) == (t', outcomes + [outcome])
  {
  }

  /** Each anchor's outcome depends only on the anchor and on what the fetch returns. */
  lemma ListingOutcomes(table: Table, anchors: seq<string>, fetch: Fetcher, today: CalendarDate)
    ensures var outcomes := ProcessListing(table, anchors, fetch, today).1;
      && |outcomes| == |anchors|
      && forall i :: 0 <= i < |anchors| ==>
           && (outcomes[i] == NotAnApplication <==> !IsApplicationNumber(Trim(anchors[i])))
           && (outcomes[i] == FetchFailed <==> IsApplicationNumber(Trim(anchors[i])) && !Fetched(anchors[i], fetch))
  {
    var step := AnchorStep(fetch, today);
    var outcomes := ProcessListing(table, anchors, fetch, today).1;
    forall i | 0 <= i < |anchors|
      ensures outcomes[i] == NotAnApplication <==> !IsApplicationNumber(Trim(anchors[i]))
      ensures outcomes[i] == FetchFailed <==> IsApplicationNumber(Trim(anchors[i])) && !Fetched(anchors[i], fetch)
    {
      FoldAt(table, anchors, i, step);
      ProcessAnchorOutcome(Fold(table, anchors[..i], step).0, anchors[i], fetch, today);
    }
  }

  /** Rows already in the table are never changed: the first write of a key wins. */
  lemma {:induction false} ListingKeepsRows(table: Table, anchors: seq<string>, fetch: Fetcher, today: CalendarDate)
    ensures var t := ProcessListing(table, anchors, fetch, today).0;
      forall k :: k in table ==> k in t && t[k] == table[k]
    decreases |anchors|
  {
    if anchors != [] {
      var init := anchors[..|anchors| - 1];
      ListingKeepsRows(table, init, fetch, today);
      ListingLast(table, anchors, fetch, today);
      ProcessAnchorKeepsRows(ProcessListing(table, init, fetch, today).0, anchors[|anchors| - 1], fetch, today);
    }
  }

  /**
   * Every new row belongs to an anchor of the listing whose detail page was
   * fetched, and it is the row built from that page.
   */
  lemma {:induction false} ListingNewRows(table: Table, anchors: seq<string>, fetch: Fetcher, today: CalendarDate)
    ensures var t := ProcessListing(table, anchors, fetch, today).0;
      forall k :: k in t && k !in table ==>
        && (exists i :: 0 <= i < |anchors| && Trim(anchors[i]) == k && Fetched(anchors[i], fetch))
        && IsApplicationNumber(k) && fetch(DetailUrl(k)).Some?
        && t[k] == FetchedRow(k, fetch, today)
    decreases |anchors|
  {
    if anchors != [] {
      var init, last := anchors[..|anchors| - 1], anchors[|anchors| - 1];
      ListingNewRows(table, init, fetch, today);
      ListingKeepsRows(table, init, fetch, today);
      var t := ProcessListing(table, init, fetch, today).0;
      ListingLast(table, anchors, fetch, today);
      ProcessAnchorKeepsRows(t, last, fetch, today);
      ProcessAnchorNewRow(t, last, fetch, today);
      var t' := ProcessListing(table, anchors, fetch, today).0;
      forall k | k in t' && k !in table
        ensures exists i :: 0 <= i < |anchors| && Trim(anchors[i]) == k && Fetched(anchors[i], fetch)
        ensures IsApplicationNumber(k) && fetch(DetailUrl(k)).Some? && t'[k] == FetchedRow(k, fetch, today)
      {
        if k in t {
          var i :| 0 <= i < |init| && Trim(init[i]) == k && Fetched(init[i], fetch);
          assert anchors[i] == init[i];
        } else {
          assert anchors[|anchors| - 1] == last;
        }
      }
    }
  }

  /** Every anchor whose detail page was fetched ends up in the table. */
  lemma ListingCoversAnchors(table: Table, anchors: seq<string>, fetch: Fetcher, today: CalendarDate)
    ensures var t := ProcessListing(table, anchors, fetch, today).0;
      forall i :: 0 <= i < |anchors| && Fetched(anchors[i], fetch) ==> Trim(anchors[i]) in t
  {
    var step := AnchorStep(fetch, today);
    forall i | 0 <= i < |anchors| && Fetched(anchors[i], fetch)
      ensures Trim(anchors[i]) in ProcessListing(table, anchors, fetch, today).0
    {
      FoldAt(table, anchors, i, step);
      ProcessAnchorKeepsRows(Fold(table, anchors[..i], step).0, anchors[i], fetch, today);
      FoldSplit(table, anchors, i + 1, step);
      ListingKeepsRows(Fold(table, anchors[..i + 1], step).0, anchors[i + 1..], fetch, today);
    }
  }

  /**
   * Running the scraper again over the same listing and pages, on the same
   * day or any other, changes nothing: every row, its `date_scraped`
   * included, stays as the first run wrote it.
   */
  lemma RerunChangesNothing(table: Table, anchors: seq<string>, fetch: Fetcher, today: CalendarDate, later: CalendarDate)
    ensures var once := ProcessListing(table, anchors, fetch, today).0;
      ProcessListing(once, anchors, fetch, later).0 == once
  {
    var once := ProcessListing(table, anchors, fetch, today).0;
    var twice := ProcessListing(once, anchors, fetch, later).0;
    ListingKeepsRows(once, anchors, fetch, later);
    ListingNewRows(once, anchors, fetch, later);
    ListingCoversAnchors(table, anchors, fetch, today);
    assert twice.Keys == once.Keys;
  }

  function CountInserted(outcomes: seq<Outcome>): (n: nat)
    ensures n <= |outcomes|
  {
    if outcomes == [] then 0
    else CountInserted(outcomes[..|outcomes| - 1]) + (if outcomes[|outcomes| - 1] == Inserted then 1 else 0)
  }

  /** The anchors reported as inserted are exactly the rows the run added. */
  lemma {:induction false} InsertedCountsNewRows(table: Table, anchors: seq<string>, fetch: Fetcher, today: CalendarDate)
    ensures var r := ProcessListing(table, anchors, fetch, today);
      table.Keys <= r.0.Keys && |r.0| == |table| + CountInserted(r.1)
    decreases |anchors|
  {
    if anchors != [] {
      var init, last := anchors[..|anchors| - 1], anchors[|anchors| - 1];
      InsertedCountsNewRows(table, init, fetch, today);
      var (t, outcomes) := ProcessListing(table, init, fetch, today);
      ProcessAnchorKeepsRows(t, last, fetch, today);
      var (t', outcome) := ProcessAnchor(t, last, fetch, today);
      var r := ProcessListing(table, anchors, fetch, today);
      ListingLast(table, anchors, fetch, today);
      assert r.1[..|r.1| - 1] == outcomes;
      if outcome == Inserted {
        assert |t'.Keys| == |t.Keys| + 1;
      }
    }
  }

  /** The loop over the anchors of the listing, inserting into `table` as it goes. */
  method ScrapeListing(table: DataTable, anchors: seq<string>, fetch: Fetcher, today: CalendarDate)
    returns (outcomes: seq<Outcome>)
    requires table.Valid()
    modifies table
    ensures table.Valid()
    ensures (table.rows, outcomes) == ProcessListing(old(table.rows), anchors, fetch, today)
  {
    outcomes := [];
    var i := 0;
    while i < |anchors|
      invariant 0 <= i <= |anchors|
      invariant table.Valid()
      invariant (table.rows, outcomes) == ProcessListing(old(table.rows), anchors[..i], fetch, today)
    {
      assert anchors[..i + 1][..i] == anchors[..i];
      ghost var before := table.rows;
      var number := Trim(anchors[i]);
      var outcome;
      if !IsApplicationNumber(number) {
        outcome := NotAnApplication;
      } else {
        var page := fetch(DetailUrl(number));
        if page.None? {
          outcome := FetchFailed;
        } else {
          var changes := table.InsertRow(BuildApplication(number, page.value, today));
          outcome := if changes > 0 then Inserted else AlreadyStored;
        }
      }
      assert (table.rows, outcome) == ProcessAnchor(before, anchors[i], fetch, today);
      outcomes := outcomes + [outcome];
      i := i + 1;
    }
    assert anchors[..i] == anchors;
  }

  /**
   * `main`: fetch the listing page, then process its anchors. A failed
   * listing request ends the run with nothing written.
   */
  method Run(table: DataTable, fetchListing: string -> Option<seq<string>>, fetch: Fetcher, today: CalendarDate)
    returns (outcomes: Option<seq<Outcome>>)
    requires table.Valid()
    modifies table
    ensures table.Valid()
    ensures fetchListing(ListingUrl).None? ==> outcomes.None? && table.rows == old(table.rows)
    ensures fetchListing(ListingUrl).Some? ==>
              outcomes.Some? &&
              (table.rows, outcomes.value) == ProcessListing(old(table.rows), fetchListing(ListingUrl).value, fetch, today)
  {
    var listing := fetchListing(ListingUrl);
    if listing.None? {
      outcomes := None;
    } else {
      var done := ScrapeListing(table, listing.value, fetch, today);
      outcomes := Some(done);
    }
  }
}
