/**
 * The Connecticut bill scraper (openstates/ct/bills.py, CTBillScraper): the committee and
 * introducer tables it builds when created, and the bills of one chamber and session it
 * builds from the bill file, the bill pages, the history file and the version listing.
 */
module CtBills {
  import opened Wrappers
  import opened Text
  import opened CtActions
  import opened CtVotes
  import opened CtTables

  const InfoUrl := "ftp://ftp.cga.ct.gov/pub/data/bill_info.csv"
  const SupportedSession := "2011"

  /** One row of the bill file. */
  datatype InfoRow = InfoRow(billNum: string, billTitle: string)

  /** A link: its text, None for an element without one, and its (absolute) target. */
  datatype Link = Link(text: Option<string>, href: string)

  /** A roll-call link of a bill page, with the page it leads to. */
  datatype VoteLink = VoteLink(link: Link, page: VotePage)

  /**
   * What the scraper reads from a bill's status page: the fiscal-note links, the
   * amendment links, the roll-call links, the links to similar bills, and the subject
   * cells of the page the first of these leads to.
   */
  datatype BillPage = BillPage(
    fiscalNotes: seq<Link>,
    amendments: seq<Link>,
    votes: seq<VoteLink>,
    similar: seq<Link>,
    subjectCells: seq<Option<string>>)

  datatype Document = Document(name: string, url: string)

  datatype Version = Version(name: string, url: string)

  /** A bill record as saved. The order of the sponsors, taken from a set, is not modelled. */
  datatype Bill = Bill(
    session: string,
    chamber: Chamber,
    id: string,
    title: string,
    billType: BillType,
    sources: seq<string>,
    documents: seq<Document>,
    votes: seq<Vote>,
    subjects: seq<string>,
    sponsors: set<string>,
    actions: seq<Action>,
    versions: seq<Version>)

  /** A member's row on a roster page: the text of its first cell, and the texts of the bill links of the member's page. */
  datatype RosterEntry = RosterEntry(cell: string, billLinks: seq<Option<string>>)

  // ---------------------------------------------------------------- bill pages

  /** The status page of a bill. */
  const StatusPage := "http://www.cga.ct.gov/asp/cgabillstatus/cgabillstatus.asp?selBillType=Bill&bill_num="
  const YearQuery := "&which_year="
  /** The path of the similar-bills links on a status page. */
  const SimilarLinks := "//a[contains(@href, 'Similar')]"
  const VersionsRoot := "ftp://ftp.cga.ct.gov/"

  function StatusUrl(id: string, session: string): string {
    StatusPage + id + YearQuery + session
  }

  /**
   * `bill.add_document(link.text.strip(), link.attrib['href'])` for every link; a link
   * without text raises AttributeError.
   */
  function Documents(links: seq<Link>): (r: Result<seq<Document>>)
    ensures r.Ok? <==> forall k :: 0 <= k < |links| ==> links[k].text.Some?
    ensures r.Err? ==> r.error == AttributeError("strip")
    ensures r.Ok? ==>
              && |r.value| == |links|
              && forall k :: 0 <= k < |links| ==> r.value[k] == Document(TextStrip(links[k].text.value), links[k].href)
  {
    if links == [] then Ok([])
    else
      var init := links[..|links| - 1];
      var l := links[|links| - 1];
      assert forall k :: 0 <= k < |init| ==> init[k] == links[k];
      var prev :- Documents(init);
      if l.text.None? then Err(AttributeError("strip"))
      else Ok(prev + [Document(TextStrip(l.text.value), l.href)])
  }

  /**
   * `td.text.replace('&nbsp', '').strip()` for every subject cell; a cell without text
   * raises AttributeError.
   */
  function Subjects(cells: seq<Option<string>>): (r: Result<seq<string>>)
    ensures r.Ok? <==> forall k :: 0 <= k < |cells| ==> cells[k].Some?
    ensures r.Err? ==> r.error == AttributeError("replace")
    ensures r.Ok? ==>
              && |r.value| == |cells|
              && forall k :: 0 <= k < |cells| ==> r.value[k] == TextStrip(Replace(cells[k].value, "&nbsp", ""))
  {
    if cells == [] then Ok([])
    else
      var init := cells[..|cells| - 1];
      var c := cells[|cells| - 1];
      assert forall k :: 0 <= k < |init| ==> init[k] == cells[k];
      var prev :- Subjects(init);
      if c.None? then Err(AttributeError("replace"))
      else Ok(prev + [TextStrip(Replace(c.value, "&nbsp", ""))])
  }

  /** The roll call of one link, read as `scrape_vote` reads it; a link without text raises. */
  function LinkVote(l: VoteLink, session: string): Result<Option<Vote>> {
    if l.link.text.None? then Err(AttributeError("strip"))
    else VoteOf(TextStrip(l.link.text.value), l.link.href, session, l.page)
  }

  /** How the roll calls of one session are read. */
  type VoteReader = VoteLink -> Result<Option<Vote>>

  function ReaderFor(session: string): VoteReader {
    l => LinkVote(l, session)
  }

  /** The roll calls of the links in order; a page read as no vote adds none, and the first failure aborts. */
  function PageVotes(links: seq<VoteLink>, rd: VoteReader): Result<seq<Vote>>
  {
    if links == [] then Ok([])
    else
      var init :- PageVotes(links[..|links| - 1], rd);
      var v :- rd(links[|links| - 1]);
      Ok(init + (if v.Some? then [v.value] else []))
  }

  /** The roll calls are read exactly when every link's page reads. */
  lemma {:induction false} PageVotesFail(links: seq<VoteLink>, rd: VoteReader)
    ensures PageVotes(links, rd).Err? <==> exists k :: 0 <= k < |links| && rd(links[k]).Err?
  {
    if links != [] {
      var init := links[..|links| - 1];
      PageVotesFail(init, rd);
      assert forall k :: 0 <= k < |init| ==> init[k] == links[k];
    }
  }

  /** At most one roll call per link, and exactly one when every page records one. */
  lemma {:induction false} PageVotesCount(links: seq<VoteLink>, rd: VoteReader)
    requires PageVotes(links, rd).Ok?
    ensures |PageVotes(links, rd).value| <= |links|
    ensures (forall k :: 0 <= k < |links| ==> rd(links[k]).Ok? ==> rd(links[k]).value.Some?) ==>
              |PageVotes(links, rd).value| == |links|
  {
    if links != [] {
      var init := links[..|links| - 1];
      PageVotesCount(init, rd);
      assert forall k :: 0 <= k < |init| ==> init[k] == links[k];
    }
  }

  /** A roll-call page that is not a budget address records its vote, or fails. */
  lemma ReaderForRecords(l: VoteLink, session: string)
    requires !Contains(l.page.raw, BudgetMarker)
    ensures ReaderFor(session)(l).Ok? ==> ReaderFor(session)(l).value.Some?
  {
  }

  /** A failure among the first `i` links is the failure of all of them. */
  lemma {:induction false} PageVotesPrefixErr(links: seq<VoteLink>, rd: VoteReader, i: nat)
    requires i <= |links| && PageVotes(links[..i], rd).Err?
    ensures PageVotes(links, rd) == PageVotes(links[..i], rd)
    decreases |links| - i
  {
    if i < |links| {
      assert links[..i + 1][..i] == links[..i];
      PageVotesPrefixErr(links, rd, i + 1);
    } else {
      assert links[..i] == links;
    }
  }

  /** One more link: its roll call is added, or its failure is the failure of the links so far. */
  lemma PageVotesStep(links: seq<VoteLink>, rd: VoteReader, i: nat)
    requires i < |links| && PageVotes(links[..i], rd).Ok?
    ensures var v := rd(links[i]);
      PageVotes(links[..i + 1], rd) ==
        if v.Err? then Err(v.error)
        else Ok(PageVotes(links[..i], rd).value + if v.value.Some? then [v.value.value] else [])
  {
    assert links[..i + 1][..i] == links[..i];
  }

  /** `self.scrape_vote(bill, link.text.strip(), link.attrib['href'])` for one link. */
  method ScrapeVoteLink(l: VoteLink, session: string) returns (v: Result<Option<Vote>>)
    ensures v == LinkVote(l, session)
  {
    if l.link.text.None? {
      return Err(AttributeError("strip"));
    }
    v := ScrapeVote(TextStrip(l.link.text.value), l.link.href, session, l.page);
  }

  /** The loop of `scrape_bill_page` over the roll-call links. */
  method ScrapeVotes(links: seq<VoteLink>, session: string) returns (r: Result<seq<Vote>>)
    ensures r == PageVotes(links, ReaderFor(session))
  {
    ghost var rd := ReaderFor(session);
    var votes: seq<Vote> := [];
    var i := 0;
    while i < |links|
      invariant 0 <= i <= |links|
      invariant PageVotes(links[..i], rd) == Ok(votes)
    {
      var l := links[i];
      var v := ScrapeVoteLink(l, session);
      assert v == rd(l);
      PageVotesStep(links, rd, i);
      if v.Err? {
        PageVotesPrefixErr(links, rd, i + 1);
        return Err(v.error);
      }
      if v.value.Some? {
        votes := votes + [v.value.value];
      } else {
        assert votes + [] == votes;
      }
      i := i + 1;
    }
    assert links[..i] == links;
    r := Ok(votes);
  }

  /**
   * What `scrape_bill_page` adds to a bill: the status page as a source, the fiscal notes
   * and then the amendments as documents, the roll calls, and the subjects of the first
   * similar-bills link; a page without one fails with an IndexError. The first of these
   * steps that fails is the failure of the page.
   */
  function WithPage(b: Bill, page: BillPage, rd: VoteReader): Result<Bill>
  {
    var notes :- Documents(page.fiscalNotes);
    var amendments :- Documents(page.amendments);
    var votes :- PageVotes(page.votes, rd);
    if page.similar == [] then Err(IndexError(SimilarLinks))
    else
      var subjects :- Subjects(page.subjectCells);
      Ok(b.(sources := b.sources + [StatusUrl(b.id, b.session)],
            documents := b.documents + notes + amendments,
            votes := b.votes + votes,
            subjects := subjects))
  }

  /**
   * The page changes only the sources, documents, roll calls and subjects of a bill: the
   * status url is added as a source, the documents and roll calls are appended, and the
   * subjects are those of the page.
   */
  lemma WithPageKeeps(b: Bill, page: BillPage, rd: VoteReader)
    requires WithPage(b, page, rd).Ok?
    ensures var c := WithPage(b, page, rd).value;
      && c.(sources := b.sources, documents := b.documents, votes := b.votes, subjects := b.subjects) == b
      && c.sources == b.sources + [StatusUrl(b.id, b.session)]
      && c.documents == b.documents + Documents(page.fiscalNotes).value + Documents(page.amendments).value
      && c.votes == b.votes + PageVotes(page.votes, rd).value
      && c.subjects == Subjects(page.subjectCells).value
  {
  }

  /** `scrape_bill_page`, once the page is fetched. */
  method ScrapeBillPage(b: Bill, page: BillPage) returns (r: Result<Bill>)
    ensures r == WithPage(b, page, ReaderFor(b.session))
  {
    var bill := b.(sources := b.sources + [StatusUrl(b.id, b.session)]);
    var docs := AddDocuments(b.documents, page.fiscalNotes);
    if docs.Err? {
      return Err(docs.error);
    }
    docs := AddDocuments(docs.value, page.amendments);
    if docs.Err? {
      return Err(docs.error);
    }
    var votes := ScrapeVotes(page.votes, b.session);
    if votes.Err? {
      return Err(votes.error);
    }
    if page.similar == [] {
      return Err(IndexError(SimilarLinks));
    }
    var subjects := Subjects(page.subjectCells);
    if subjects.Err? {
      return Err(subjects.error);
    }
    r := Ok(bill.(documents := docs.value, votes := b.votes + votes.value, subjects := subjects.value));
  }

  /**
   * The loops of `scrape_bill_page` over fiscal notes and amendments: one document per
   * link, in order, after those already there; a link without text fails.
   */
  method AddDocuments(docs: seq<Document>, links: seq<Link>) returns (r: Result<seq<Document>>)
    ensures r.Ok? <==> Documents(links).Ok?
    ensures r.Ok? ==> r.value == docs + Documents(links).value
    ensures r.Err? ==> r.error == Documents(links).error
  {
    var ds := docs;
    var i := 0;
    while i < |links|
      invariant 0 <= i <= |links|
      invariant Documents(links[..i]).Ok? && ds == docs + Documents(links[..i]).value
    {
      assert links[..i + 1][..i] == links[..i];
      var l := links[i];
      if l.text.None? {
        assert !Documents(links).Ok?;
        return Err(AttributeError("strip"));
      }
      ds := ds + [Document(TextStrip(l.text.value), l.href)];
      i := i + 1;
    }
    assert links[..i] == links;
    r := Ok(ds);
  }

  // ---------------------------------------------------------------- bill file

  /**
   * The bill of a row of the requested chamber: numbered, titled and typed by the row,
   * with the bill file as first source, completed by its status page, and sponsored by
   * its introducers.
   */
  function BillFromRow(row: InfoRow, chamber: Chamber, session: string, pages: string -> BillPage,
                       introducers: map<string, set<string>>): Result<Bill>
  {
    var b := Bill(session, chamber, row.billNum, row.billTitle, BillTypeOf(row.billNum), [InfoUrl], [], [], [], {}, [], []);
    var c :- WithPage(b, pages(StatusUrl(row.billNum, session)), ReaderFor(session));
    Ok(c.(sponsors := IntroducersOf(introducers, row.billNum)))
  }

  /** The bill-making step for one scrape. */
  type BillMaker = InfoRow -> Result<Bill>

  function MakerFor(chamber: Chamber, session: string, pages: string -> BillPage,
                    introducers: map<string, set<string>>): BillMaker
  {
    row => BillFromRow(row, chamber, session, pages, introducers)
  }

  /** One row of the bill file: an empty number fails, another chamber's row is skipped, a bill replaces any earlier one. */
  function InfoStep(bills: map<string, Bill>, row: InfoRow, chamber: Chamber, mk: BillMaker): (map<string, Bill>, Option<Error>)
  {
    if row.billNum == [] then (bills, Some(IndexError(row.billNum)))
    else if row.billNum[0] != ChamberLetter(chamber) then (bills, None)
    else
      match mk(row)
      case Err(e) => (bills, Some(e))
      case Ok(b) => (bills[row.billNum := b], None)
  }

  /** `self.bills` after the rows of the bill file, and the failure that stopped the loop, if any. */
  function InfoRun(bills: map<string, Bill>, rows: seq<InfoRow>, chamber: Chamber, mk: BillMaker): (map<string, Bill>, Option<Error>)
  {
    if rows == [] then (bills, None)
    else
      var prev := InfoRun(bills, rows[..|rows| - 1], chamber, mk);
      if prev.1.Some? then prev else InfoStep(prev.0, rows[|rows| - 1], chamber, mk)
  }

  /** A row of the chamber the scrape asked for. */
  predicate OfChamber(row: InfoRow, chamber: Chamber) {
    row.billNum != [] && row.billNum[0] == ChamberLetter(chamber)
  }

  /**
   * When the bill file is read through, the bills are the old ones and one for every row
   * of the requested chamber, and every row had a number.
   */
  lemma {:induction false} InfoRunKeys(bills: map<string, Bill>, rows: seq<InfoRow>, chamber: Chamber, mk: BillMaker, id: string)
    requires InfoRun(bills, rows, chamber, mk).1.None?
    ensures forall k :: 0 <= k < |rows| ==> rows[k].billNum != []
    ensures id in InfoRun(bills, rows, chamber, mk).0 <==>
              id in bills || exists k :: 0 <= k < |rows| && OfChamber(rows[k], chamber) && rows[k].billNum == id
  {
    if rows != [] {
      var init := rows[..|rows| - 1];
      InfoRunKeys(bills, init, chamber, mk, id);
      assert forall k :: 0 <= k < |init| ==> init[k] == rows[k];
      if exists k :: 0 <= k < |rows| && OfChamber(rows[k], chamber) && rows[k].billNum == id {
        var k :| 0 <= k < |rows| && OfChamber(rows[k], chamber) && rows[k].billNum == id;
        if k < |init| {
          assert init[k] == rows[k];
        }
      }
    }
  }

  /** Every bill of the table is filed under its own number, is of the chamber and session, and is well formed. */
  predicate Filed(bills: map<string, Bill>, chamber: Chamber, session: string, introducers: map<string, set<string>>) {
    forall id :: id in bills ==> FiledBill(id, bills[id], chamber, session, introducers)
  }

  predicate FiledBill(id: string, b: Bill, chamber: Chamber, session: string, introducers: map<string, set<string>>) {
    && b.id == id && id != [] && id[0] == ChamberLetter(chamber)
    && b.chamber == chamber && b.session == session
    && b.billType == BillTypeOf(id)
    && b.sources == [InfoUrl, StatusUrl(id, session)]
    && b.sponsors == IntroducersOf(introducers, id)
  }

  /** A bill made from a row is filed under the row's number, with the type of its prefix and its introducers as sponsors. */
  lemma BillFromRowFiled(row: InfoRow, chamber: Chamber, session: string, pages: string -> BillPage,
                         introducers: map<string, set<string>>)
    requires OfChamber(row, chamber) && BillFromRow(row, chamber, session, pages, introducers).Ok?
    ensures var b := BillFromRow(row, chamber, session, pages, introducers).value;
      FiledBill(row.billNum, b, chamber, session, introducers) && b.title == row.billTitle
  {
    var b := Bill(session, chamber, row.billNum, row.billTitle, BillTypeOf(row.billNum), [InfoUrl], [], [], [], {}, [], []);
    WithPageKeeps(b, pages(StatusUrl(row.billNum, session)), ReaderFor(session));
  }

  /** Every bill a maker makes from a row of the chamber is filed under the row's number. */
  ghost predicate MakesFiled(mk: BillMaker, chamber: Chamber, session: string, introducers: map<string, set<string>>) {
    forall row :: OfChamber(row, chamber) && mk(row).Ok? ==> FiledBill(row.billNum, mk(row).value, chamber, session, introducers)
  }

  /** The maker of a scrape files every bill it makes. */
  lemma MakerForFiled(chamber: Chamber, session: string, pages: string -> BillPage, introducers: map<string, set<string>>)
    ensures MakesFiled(MakerFor(chamber, session, pages, introducers), chamber, session, introducers)
  {
    var mk := MakerFor(chamber, session, pages, introducers);
    forall row | OfChamber(row, chamber) && mk(row).Ok?
      ensures FiledBill(row.billNum, mk(row).value, chamber, session, introducers)
    {
      BillFromRowFiled(row, chamber, session, pages, introducers);
    }
  }

  /** Reading the bill file keeps the table filed, whether it is read through or stops early. */
  lemma InfoRunFiled(bills: map<string, Bill>, rows: seq<InfoRow>, chamber: Chamber, session: string,
                     mk: BillMaker, introducers: map<string, set<string>>)
    requires Filed(bills, chamber, session, introducers) && MakesFiled(mk, chamber, session, introducers)
    ensures Filed(InfoRun(bills, rows, chamber, mk).0, chamber, session, introducers)
  {
    var r := InfoRun(bills, rows, chamber, mk).0;
    forall id | id in r
      ensures FiledBill(id, r[id], chamber, session, introducers)
    {
      InfoRunFiledAt(bills, rows, chamber, session, mk, introducers, id);
    }
  }

  lemma {:induction false} InfoRunFiledAt(bills: map<string, Bill>, rows: seq<InfoRow>, chamber: Chamber, session: string,
                                          mk: BillMaker, introducers: map<string, set<string>>, id: string)
    requires Filed(bills, chamber, session, introducers) && MakesFiled(mk, chamber, session, introducers)
    requires id in InfoRun(bills, rows, chamber, mk).0
    ensures FiledBill(id, InfoRun(bills, rows, chamber, mk).0[id], chamber, session, introducers)
  {
    if rows != [] {
      var init := rows[..|rows| - 1];
      var prev := InfoRun(bills, init, chamber, mk);
      var row := rows[|rows| - 1];
      if prev.1.None? && OfChamber(row, chamber) && mk(row).Ok? && row.billNum == id {
        assert InfoRun(bills, rows, chamber, mk).0[id] == mk(row).value;
      } else {
        InfoRunFiledAt(bills, init, chamber, session, mk, introducers, id);
      }
    }
  }

  /** The bill filed under a number comes from the last row with that number. */
  lemma {:induction false} InfoRunLastRow(bills: map<string, Bill>, rows: seq<InfoRow>, chamber: Chamber, mk: BillMaker, k: nat)
    requires InfoRun(bills, rows, chamber, mk).1.None?
    requires k < |rows| && OfChamber(rows[k], chamber)
    requires forall j :: k < j < |rows| ==> rows[j].billNum != rows[k].billNum
    ensures rows[k].billNum in InfoRun(bills, rows, chamber, mk).0
    ensures mk(rows[k]) == Ok(InfoRun(bills, rows, chamber, mk).0[rows[k].billNum])
  {
    var init := rows[..|rows| - 1];
    if k < |init| {
      assert init[k] == rows[k];
      assert forall j :: k < j < |init| ==> init[j] == rows[j];
      InfoRunLastRow(bills, init, chamber, mk, k);
    }
  }

  /** A row of the other chamber changes nothing. */
  lemma InfoStepOtherChamber(bills: map<string, Bill>, row: InfoRow, chamber: Chamber, mk: BillMaker)
    requires row.billNum != [] && row.billNum[0] != ChamberLetter(chamber)
    ensures InfoStep(bills, row, chamber, mk) == (bills, None)
  {
  }

  // ---------------------------------------------------------------- history

  /** A bill with the actions of the given history rows added, sorted by date. */
  function WithRows(b: Bill, group: seq<HistoryRow>, names: map<string, string>): Result<Bill>
  {
    var acts :- BillActions(b.chamber, SortByActDate(group), RewriteFor(b.session, names));
    Ok(b.(actions := b.actions + acts))
  }

  /** A bill with the actions of its own history rows added, sorted by date. */
  function WithHistory(b: Bill, id: string, rows: seq<HistoryRow>, names: map<string, string>): Result<Bill>
  {
    WithRows(b, RowsOf(rows, id), names)
  }

  /** A bill without history rows is left as it is. */
  lemma WithHistoryNoRows(b: Bill, id: string, rows: seq<HistoryRow>, names: map<string, string>)
    requires forall k :: 0 <= k < |rows| ==> rows[k].billNum != id
    ensures WithHistory(b, id, rows, names) == Ok(b)
  {
    RowsOfEmpty(rows, id);
    assert b.actions + [] == b.actions;
  }

  /** The history changes only the actions of a bill, adding one per history row of the bill. */
  lemma WithHistoryKeeps(b: Bill, id: string, rows: seq<HistoryRow>, names: map<string, string>)
    requires WithHistory(b, id, rows, names).Ok?
    ensures var c := WithHistory(b, id, rows, names).value;
      c.(actions := b.actions) == b && |c.actions| == |b.actions| + |RowsOf(rows, id)|
  {
    var sorted := SortByActDate(RowsOf(rows, id));
    var rw := RewriteFor(b.session, names);
    SortByActDatePermutes(RowsOf(rows, id));
    assert |sorted| == |RowsOf(rows, id)| by {
      assert |multiset(sorted)| == |multiset(RowsOf(rows, id))|;
    }
    if sorted != [] {
      BillActionsAt(b.chamber, sorted, rw, 0);
    }
  }

  // ---------------------------------------------------------------- versions

  /** `{'upper': 's', 'lower': 'h'}[chamber]`. */
  function VersionsLetter(c: Chamber): string {
    if c == Upper then "s" else "h"
  }

  function VersionsUrl(chamber: Chamber, session: string): string {
    VersionsRoot + session + "/tob/" + VersionsLetter(chamber) + "/"
  }

  /** How the names of the listing are read. */
  type NameParser = string -> Option<VersionName>

  /** The versions the listing `files` gives bill `id`, in listing order. */
  function VersionsFor(files: seq<string>, id: string, base: string, parse: NameParser): seq<Version>
  {
    if files == [] then []
    else
      var f := files[|files| - 1];
      var v := parse(f);
      VersionsFor(files[..|files| - 1], id, base, parse)
      + (if v.Some? && v.value.billId == id then [Version(v.value.version, base + f)] else [])
  }

  /** One file of the listing: an unparsable name fails, a file of an unknown bill is skipped. */
  function VersionStep(bills: map<string, Bill>, f: string, base: string, parse: NameParser): (map<string, Bill>, Option<Error>)
  {
    match parse(f)
    case None => (bills, Some(AttributeError(f)))
    case Some(v) =>
      if v.billId in bills then
        var b := bills[v.billId];
        (bills[v.billId := b.(versions := b.versions + [Version(v.version, base + f)])], None)
      else (bills, None)
  }

  /** The bills after the files of the listing, and the failure that stopped the loop, if any. */
  function VersionsRun(bills: map<string, Bill>, files: seq<string>, base: string, parse: NameParser): (map<string, Bill>, Option<Error>)
  {
    if files == [] then (bills, None)
    else
      var prev := VersionsRun(bills, files[..|files| - 1], base, parse);
      if prev.1.Some? then prev else VersionStep(prev.0, files[|files| - 1], base, parse)
  }

  /** The listing adds no bills and changes only their versions. */
  lemma {:induction false} VersionsRunKeeps(bills: map<string, Bill>, files: seq<string>, base: string, parse: NameParser)
    ensures var r := VersionsRun(bills, files, base, parse);
      && r.0.Keys == bills.Keys
      && (forall id :: id in bills ==> r.0[id].(versions := bills[id].versions) == bills[id])
  {
    if files != [] {
      VersionsRunKeeps(bills, files[..|files| - 1], base, parse);
    }
  }

  /** A listing read through gives every bill the versions of its own files, in order. */
  lemma {:induction false} VersionsRunSpec(bills: map<string, Bill>, files: seq<string>, base: string, parse: NameParser, id: string)
    requires id in bills && VersionsRun(bills, files, base, parse).1.None?
    ensures var r := VersionsRun(bills, files, base, parse).0;
      id in r && r[id].versions == bills[id].versions + VersionsFor(files, id, base, parse)
  {
    VersionsRunKeeps(bills, files, base, parse);
    if files != [] {
      var init := files[..|files| - 1];
      VersionsRunKeeps(bills, init, base, parse);
      VersionsRunSpec(bills, init, base, parse, id);
      var prev := VersionsRun(bills, init, base, parse).0;
      var f := files[|files| - 1];
      assert id in prev;
      match parse(f)
      case None =>
      case Some(v) =>
        if v.billId == id {
          assert VersionsRun(bills, files, base, parse).0[id].versions == prev[id].versions + [Version(v.version, base + f)];
        }
    }
  }

  /** The listing fails exactly when one of its names does not parse. */
  lemma {:induction false} VersionsRunFail(bills: map<string, Bill>, files: seq<string>, base: string, parse: NameParser)
    ensures VersionsRun(bills, files, base, parse).1.Some? <==> exists k :: 0 <= k < |files| && parse(files[k]).None?
  {
    if files != [] {
      var init := files[..|files| - 1];
      VersionsRunFail(bills, init, base, parse);
      assert forall k :: 0 <= k < |init| ==> init[k] == files[k];
    }
  }

  // ---------------------------------------------------------------- introducers

  /** The member a roster cell names: `parse_member_name` of the stripped cell text. */
  function MemberOfCell(cell: string): Option<string> {
    ParseMemberName(TextStrip(cell))
  }

  /**
   * The texts of the links `scrape_introducer` strips before the first link without text,
   * on which `link.text.strip()` raises.
   */
  function KnownTexts(links: seq<Option<string>>): (r: seq<string>)
    ensures |r| <= |links|
  {
    if links == [] || links[0].None? then [] else [links[0].value] + KnownTexts(links[1..])
  }

  /** The known texts are those of the links up to the first link without text. */
  lemma {:induction false} KnownTextsSpec(links: seq<Option<string>>)
    ensures var r := KnownTexts(links);
      && (forall k :: 0 <= k < |r| ==> links[k] == Some(r[k]))
      && (|r| < |links| ==> links[|r|].None?)
  {
    if links != [] && links[0].Some? {
      KnownTextsSpec(links[1..]);
    }
  }

  /** `scrape_introducer` of one member: the bills linked before a link without text, and the failure it raises. */
  function Introduce(t: map<string, set<string>>, name: string, links: seq<Option<string>>): (map<string, set<string>>, Option<Error>)
  {
    var texts := KnownTexts(links);
    (AddIntroducer(t, name, texts), if |texts| == |links| then None else Some(AttributeError("strip")))
  }

  /** The entry names member `who` and links bill `id`. */
  predicate Introduces(e: RosterEntry, member: CellReader, who: string, id: string) {
    member(e.cell) == Some(who) && Links(KnownTexts(e.billLinks), id)
  }

  /** How roster cells are read. */
  type CellReader = string -> Option<string>

  /** `scrape_introducers` over a roster: the first cell that names no member fails. */
  function RosterRun(t: map<string, set<string>>, roster: seq<RosterEntry>, member: CellReader): (map<string, set<string>>, Option<Error>)
  {
    if roster == [] then (t, None)
    else
      var prev := RosterRun(t, roster[..|roster| - 1], member);
      var e := roster[|roster| - 1];
      if prev.1.Some? then prev
      else
        match member(e.cell)
        case None => (prev.0, Some(AttributeError(TextStrip(e.cell))))
        case Some(name) => Introduce(prev.0, name, e.billLinks)
  }

  /** A roster read through adds a member to a bill exactly when the member's page links the bill. */
  lemma {:induction false} RosterRunSpec(t: map<string, set<string>>, roster: seq<RosterEntry>, member: CellReader, id: string, who: string)
    requires RosterRun(t, roster, member).1.None?
    ensures who in IntroducersOf(RosterRun(t, roster, member).0, id) <==>
              who in IntroducersOf(t, id) || exists k :: 0 <= k < |roster| && Introduces(roster[k], member, who, id)
  {
    if roster != [] {
      var init := roster[..|roster| - 1];
      var e := roster[|roster| - 1];
      var prev := RosterRun(t, init, member);
      assert prev.1.None? && member(e.cell).Some?;
      var name := member(e.cell).value;
      assert RosterRun(t, roster, member).0 == Introduce(prev.0, name, e.billLinks).0;
      RosterRunSpec(t, init, member, id, who);
      IntroduceAdds(prev.0, name, e.billLinks, id, who);
      IntroducesSplit(roster, member, who, id);
    }
  }

  /** One member's page adds the member to exactly the bills it links. */
  lemma IntroduceAdds(t: map<string, set<string>>, name: string, links: seq<Option<string>>, id: string, who: string)
    ensures who in IntroducersOf(Introduce(t, name, links).0, id) <==>
              who in IntroducersOf(t, id) || (who == name && Links(KnownTexts(links), id))
  {
    AddIntroducerSpec(t, name, KnownTexts(links), id);
  }

  /** Some entry introduces `who` to `id` when an earlier one does or the last one does. */
  lemma IntroducesSplit(roster: seq<RosterEntry>, member: CellReader, who: string, id: string)
    requires roster != []
    ensures var init := roster[..|roster| - 1];
      (exists k :: 0 <= k < |roster| && Introduces(roster[k], member, who, id)) <==>
        (exists k :: 0 <= k < |init| && Introduces(init[k], member, who, id)) || Introduces(roster[|roster| - 1], member, who, id)
  {
    var init := roster[..|roster| - 1];
    assert forall k :: 0 <= k < |init| ==> init[k] == roster[k];
  }

  /** A roster read through names a member in every cell and has a text on every bill link. */
  lemma {:induction false} RosterRunRead(t: map<string, set<string>>, roster: seq<RosterEntry>, member: CellReader)
    requires RosterRun(t, roster, member).1.None?
    ensures forall k :: 0 <= k < |roster| ==> member(roster[k].cell).Some?
    ensures forall k :: 0 <= k < |roster| ==> |KnownTexts(roster[k].billLinks)| == |roster[k].billLinks|
  {
    if roster != [] {
      var init := roster[..|roster| - 1];
      var e := roster[|roster| - 1];
      var prev := RosterRun(t, init, member);
      assert prev.1.None? && member(e.cell).Some?;
      assert Introduce(prev.0, member(e.cell).value, e.billLinks).1.None?;
      RosterRunRead(t, init, member);
      forall k | 0 <= k < |roster|
        ensures member(roster[k].cell).Some? && |KnownTexts(roster[k].billLinks)| == |roster[k].billLinks|
      {
        if k < |init| {
          assert init[k] == roster[k];
        }
      }
    }
  }

  // ---------------------------------------------------------------- the three passes

  /** Every bill of the table takes the actions of its own history rows without an error. */
  predicate HistoriesBuild(bills: map<string, Bill>, rows: seq<HistoryRow>, names: map<string, string>) {
    forall id :: id in bills ==> WithHistory(bills[id], id, rows, names).Ok?
  }

  /** The table with the history of every bill added to it. */
  function WithHistories(bills: map<string, Bill>, rows: seq<HistoryRow>, names: map<string, string>): map<string, Bill>
    requires HistoriesBuild(bills, rows, names)
  {
    map id | id in bills :: WithHistory(bills[id], id, rows, names).value
  }

  /**
   * The bills `scrape` ends with: the bill file read into an empty table, the history of
   * each bill added, then the version listing read over them; None when a pass fails.
   */
  function ScrapedBills(chamber: Chamber, session: string, info: seq<InfoRow>, pages: string -> BillPage,
                        history: seq<HistoryRow>, files: seq<string>,
                        names: map<string, string>, introducers: map<string, set<string>>): Option<map<string, Bill>>
  {
    var filed := InfoRun(map[], info, chamber, MakerFor(chamber, session, pages, introducers));
    if filed.1.Some? || !HistoriesBuild(filed.0, history, names) then None
    else
      var versioned := VersionsRun(WithHistories(filed.0, history, names), files, VersionsUrl(chamber, session), ParseVersionName);
      if versioned.1.Some? then None else Some(versioned.0)
  }

  /**
   * A scrape that succeeds keeps exactly the bills of the bill file; each carries the
   * actions of its own history rows and, after its earlier versions, those of its own files.
   */
  lemma ScrapedBillsSpec(chamber: Chamber, session: string, info: seq<InfoRow>, pages: string -> BillPage,
                         history: seq<HistoryRow>, files: seq<string>,
                         names: map<string, string>, introducers: map<string, set<string>>, id: string)
    requires ScrapedBills(chamber, session, info, pages, history, files, names, introducers).Some?
    ensures var filed := InfoRun(map[], info, chamber, MakerFor(chamber, session, pages, introducers)).0;
      var r := ScrapedBills(chamber, session, info, pages, history, files, names, introducers).value;
      && (id in r <==> id in filed)
      && (id in r ==>
            && WithHistory(filed[id], id, history, names) == Ok(r[id].(versions := filed[id].versions))
            && r[id].versions == filed[id].versions + VersionsFor(files, id, VersionsUrl(chamber, session), ParseVersionName))
  {
    var filed := InfoRun(map[], info, chamber, MakerFor(chamber, session, pages, introducers)).0;
    var dated := WithHistories(filed, history, names);
    var base := VersionsUrl(chamber, session);
    VersionsRunKeeps(dated, files, base, ParseVersionName);
    if id in filed {
      WithHistoryKeeps(filed[id], id, history, names);
      VersionsRunSpec(dated, files, base, ParseVersionName, id);
      var r := VersionsRun(dated, files, base, ParseVersionName).0;
      assert r[id].(versions := filed[id].versions) == dated[id];
    }
  }

  /**
   * The bills of a scrape that succeeds are those of the requested chamber in the bill
   * file, each filed under its own number for the session with the introducers as sponsors.
   */
  lemma ScrapedBillsFiled(chamber: Chamber, session: string, info: seq<InfoRow>, pages: string -> BillPage,
                          history: seq<HistoryRow>, files: seq<string>,
                          names: map<string, string>, introducers: map<string, set<string>>)
    requires ScrapedBills(chamber, session, info, pages, history, files, names, introducers).Some?
    ensures var r := ScrapedBills(chamber, session, info, pages, history, files, names, introducers).value;
      && Filed(r, chamber, session, introducers)
      && forall id :: id in r <==> exists k :: 0 <= k < |info| && OfChamber(info[k], chamber) && info[k].billNum == id
  {
    var mk := MakerFor(chamber, session, pages, introducers);
    var filed := InfoRun(map[], info, chamber, mk).0;
    var r := ScrapedBills(chamber, session, info, pages, history, files, names, introducers).value;
    MakerForFiled(chamber, session, pages, introducers);
    InfoRunFiled(map[], info, chamber, session, mk, introducers);
    forall id
      ensures id in r <==> exists k :: 0 <= k < |info| && OfChamber(info[k], chamber) && info[k].billNum == id
      ensures id in r ==> FiledBill(id, r[id], chamber, session, introducers)
    {
      InfoRunKeys(map[], info, chamber, mk, id);
      ScrapedBillsSpec(chamber, session, info, pages, history, files, names, introducers, id);
      if id in r {
        assert FiledBill(id, filed[id], chamber, session, introducers);
        WithHistoryKeeps(filed[id], id, history, names);
      }
    }
  }

  // ---------------------------------------------------------------- the scraper

  class CtBillScraper {
    var committeeNames: map<string, string>
    var introducers: map<string, set<string>>
    var bills: map<string, Bill>

    /** Empty tables, as the class attributes start. */
    constructor()
      ensures committeeNames == map[] && introducers == map[] && bills == map[]
    {
      committeeNames := map[];
      introducers := map[];
      bills := map[];
    }

    /** `__init__`: the committee names, then the Senate roster, then the House roster. */
    method Init(committees: seq<CommitteeRow>, senate: seq<RosterEntry>, house: seq<RosterEntry>) returns (failure: Option<Error>)
      modifies this
      ensures committeeNames == CommitteeTable(old(committeeNames), committees)
      ensures bills == old(bills)
      ensures var s := RosterRun(old(introducers), senate, MemberOfCell);
        if s.1.Some? then introducers == s.0 && failure == s.1
        else (introducers, failure) == RosterRun(s.0, house, MemberOfCell)
    {
      ScrapeCommitteeNames(committees);
      failure := ScrapeIntroducers(senate);
      if failure.None? {
        failure := ScrapeIntroducers(house);
      }
    }

    /** `scrape_committee_names`: stores every row's stripped code and cleaned name, in order. */
    method ScrapeCommitteeNames(rows: seq<CommitteeRow>)
      modifies this
      ensures committeeNames == CommitteeTable(old(committeeNames), rows)
      ensures introducers == old(introducers) && bills == old(bills)
    {
      var i := 0;
      while i < |rows|
        invariant 0 <= i <= |rows|
        invariant committeeNames == CommitteeTable(old(committeeNames), rows[..i])
        invariant introducers == old(introducers) && bills == old(bills)
      {
        assert rows[..i + 1][..i] == rows[..i];
        var code := Strip(rows[i].code);
        var name := Strip(rows[i].name);
        committeeNames := committeeNames[code := DropCommitteeSuffix(name)];
        i := i + 1;
      }
      assert rows[..i] == rows;
    }

    /** `scrape_introducers`: one member per roster entry, with the bills the member's page links. */
    method ScrapeIntroducers(roster: seq<RosterEntry>) returns (failure: Option<Error>)
      modifies this
      ensures (introducers, failure) == RosterRun(old(introducers), roster, MemberOfCell)
      ensures committeeNames == old(committeeNames) && bills == old(bills)
    {
      var i := 0;
      while i < |roster|
        invariant 0 <= i <= |roster|
        invariant RosterRun(old(introducers), roster[..i], MemberOfCell) == (introducers, None)
        invariant committeeNames == old(committeeNames) && bills == old(bills)
      {
        assert roster[..i + 1][..i] == roster[..i];
        var cell := TextStrip(roster[i].cell);
        var name := ParseMemberName(cell);
        if name.None? {
          RosterRunPrefix(old(introducers), roster, MemberOfCell, i + 1);
          return Some(AttributeError(cell));
        }
        failure := ScrapeIntroducer(name.value, roster[i].billLinks);
        if failure.Some? {
          RosterRunPrefix(old(introducers), roster, MemberOfCell, i + 1);
          return;
        }
        i := i + 1;
      }
      assert roster[..i] == roster;
      failure := None;
    }

    /**
     * `scrape_introducer`: adds the member to every bill its page links; a link without
     * text raises, after the links before it have been added.
     */
    method ScrapeIntroducer(name: string, billLinks: seq<Option<string>>) returns (failure: Option<Error>)
      modifies this
      ensures introducers == AddIntroducer(old(introducers), name, KnownTexts(billLinks))
      ensures failure == if |KnownTexts(billLinks)| == |billLinks| then None else Some(AttributeError("strip"))
      ensures committeeNames == old(committeeNames) && bills == old(bills)
    {
      ghost var texts := KnownTexts(billLinks);
      KnownTextsSpec(billLinks);
      var i := 0;
      while i < |billLinks|
        invariant 0 <= i <= |texts|
        invariant introducers == AddIntroducer(old(introducers), name, texts[..i])
        invariant committeeNames == old(committeeNames) && bills == old(bills)
      {
        if billLinks[i].None? {
          assert i == |texts|;
          assert texts[..i] == texts;
          return Some(AttributeError("strip"));
        }
        assert texts[..i + 1][..i] == texts[..i];
        var id := TextStrip(billLinks[i].value);
        var sofar := if id in introducers then introducers[id] else {};
        introducers := introducers[id := sofar + {name}];
        i := i + 1;
      }
      assert texts[..i] == texts;
      failure := None;
    }

    /** `scrape`: only the 2011 session is covered; then the bill file, the history and the versions. */
    method Scrape(chamber: Chamber, session: string, info: seq<InfoRow>, pages: string -> BillPage,
                  history: seq<HistoryRow>, files: seq<string>) returns (r: Result<map<string, Bill>>)
      modifies this
      ensures session != SupportedSession ==> r == Err(NoDataForPeriod(session)) && bills == old(bills)
      ensures committeeNames == old(committeeNames) && introducers == old(introducers)
      ensures r.Ok? ==> r.value == bills && session == SupportedSession && Filed(bills, chamber, session, introducers)
      ensures r.Ok? ==> forall id :: id in bills <==> exists k :: 0 <= k < |info| && OfChamber(info[k], chamber) && info[k].billNum == id
      ensures session == SupportedSession ==>
                (r.Ok? <==> ScrapedBills(chamber, session, info, pages, history, files, committeeNames, introducers).Some?)
      ensures r.Ok? ==> r.value == ScrapedBills(chamber, session, info, pages, history, files, committeeNames, introducers).value
    {
      if session != SupportedSession {
        return Err(NoDataForPeriod(session));
      }
      bills := map[];
      var failure := ScrapeBillInfo(chamber, session, info, pages);
      if failure.Some? {
        return Err(failure.value);
      }
      ghost var filed := bills;
      failure := ScrapeBillHistory(history);
      if failure.Some? {
        return Err(failure.value);
      }
      ghost var dated := bills;
      assert dated == WithHistories(filed, history, committeeNames);
      failure := ScrapeVersions(chamber, session, files);
      if failure.Some? {
        return Err(failure.value);
      }
      ScrapedBillsFiled(chamber, session, info, pages, history, files, committeeNames, introducers);
      r := Ok(bills);
    }

    /** `scrape_bill_info`: the bills of the requested chamber, in file order. */
    method ScrapeBillInfo(chamber: Chamber, session: string, rows: seq<InfoRow>, pages: string -> BillPage)
      returns (failure: Option<Error>)
      modifies this
      ensures (bills, failure) == InfoRun(old(bills), rows, chamber, MakerFor(chamber, session, pages, introducers))
      ensures committeeNames == old(committeeNames) && introducers == old(introducers)
    {
      ghost var mk := MakerFor(chamber, session, pages, introducers);
      var i := 0;
      while i < |rows|
        invariant 0 <= i <= |rows|
        invariant InfoRun(old(bills), rows[..i], chamber, mk) == (bills, None)
        invariant committeeNames == old(committeeNames) && introducers == old(introducers)
      {
        InfoRunStep(old(bills), rows, chamber, mk, i, bills);
        failure := ScrapeInfoRow(chamber, session, rows[i], pages);
        if failure.Some? {
          InfoRunPrefix(old(bills), rows, chamber, mk, i + 1);
          return;
        }
        i := i + 1;
      }
      assert rows[..i] == rows;
      failure := None;
    }

    /** The body of the loop of `scrape_bill_info`: one row of the bill file. */
    method ScrapeInfoRow(chamber: Chamber, session: string, row: InfoRow, pages: string -> BillPage)
      returns (failure: Option<Error>)
      modifies this
      ensures (bills, failure) == InfoStep(old(bills), row, chamber, MakerFor(chamber, session, pages, introducers))
      ensures committeeNames == old(committeeNames) && introducers == old(introducers)
    {
      if row.billNum == [] {
        return Some(IndexError(row.billNum));
      }
      if row.billNum[0] == ChamberLetter(chamber) {
        var bill := Bill(session, chamber, row.billNum, row.billTitle, BillTypeOf(row.billNum), [InfoUrl], [], [], [], {}, [], []);
        var paged := ScrapeBillPage(bill, pages(StatusUrl(row.billNum, session)));
        if paged.Err? {
          return Some(paged.error);
        }
        var sponsors := if row.billNum in introducers then introducers[row.billNum] else {};
        bills := bills[row.billNum := paged.value.(sponsors := sponsors)];
      }
      failure := None;
    }

    /**
     * `scrape_bill_history`: the history rows of the known bills, grouped by bill, sorted
     * by date, and turned into actions with the acting chamber of each bill.
     */
    method ScrapeBillHistory(rows: seq<HistoryRow>) returns (failure: Option<Error>)
      modifies this
      ensures bills.Keys == old(bills).Keys
      ensures committeeNames == old(committeeNames) && introducers == old(introducers)
      ensures failure.None? ==> forall id :: id in bills ==> WithHistory(old(bills)[id], id, rows, committeeNames) == Ok(bills[id])
      ensures failure.Some? ==>
                exists id :: id in old(bills) && WithHistory(old(bills)[id], id, rows, committeeNames) == Err(failure.value)
      ensures forall id :: id in bills ==>
                bills[id] == old(bills)[id] || WithHistory(old(bills)[id], id, rows, committeeNames) == Ok(bills[id])
    {
      var groups := GroupRows(rows, bills.Keys);
      failure := ScrapeGroups(groups);
      forall id | id in bills && id !in groups
        ensures WithHistory(old(bills)[id], id, rows, committeeNames) == Ok(old(bills)[id])
      {
        var b := old(bills)[id];
        assert RowsOf(rows, id) == [];
        assert b.(actions := b.actions + []) == b;
      }
    }

    /** The loop of `scrape_bill_history` over the groups; the first bill whose actions fail stops it. */
    method ScrapeGroups(groups: map<string, seq<HistoryRow>>) returns (failure: Option<Error>)
      requires groups.Keys <= bills.Keys
      modifies this
      ensures bills.Keys == old(bills).Keys
      ensures committeeNames == old(committeeNames) && introducers == old(introducers)
      ensures failure.None? ==> forall id :: id in groups ==> WithRows(old(bills)[id], groups[id], committeeNames) == Ok(bills[id])
      ensures failure.Some? ==> exists id :: id in groups && WithRows(old(bills)[id], groups[id], committeeNames) == Err(failure.value)
      ensures forall id :: id in bills && id !in groups ==> bills[id] == old(bills)[id]
      ensures forall id :: id in groups ==>
                bills[id] == old(bills)[id] || WithRows(old(bills)[id], groups[id], committeeNames) == Ok(bills[id])
    {
      var pending := groups.Keys;
      while pending != {}
        invariant pending <= groups.Keys
        invariant bills.Keys == old(bills).Keys
        invariant committeeNames == old(committeeNames) && introducers == old(introducers)
        invariant forall id :: id in groups && id !in pending ==>
                    WithRows(old(bills)[id], groups[id], committeeNames) == Ok(bills[id])
        invariant forall id :: id in bills && (id in pending || id !in groups) ==> bills[id] == old(bills)[id]
        decreases pending
      {
        var id :| id in pending;
        failure := ScrapeBillRows(id, groups[id]);
        if failure.Some? {
          return;
        }
        pending := pending - {id};
      }
      failure := None;
    }

    /** The actions of one bill, built from its own history rows. */
    method ScrapeBillRows(id: string, group: seq<HistoryRow>) returns (failure: Option<Error>)
      requires id in bills
      modifies this
      ensures committeeNames == old(committeeNames) && introducers == old(introducers)
      ensures failure.Some? ==> bills == old(bills) && WithRows(old(bills)[id], group, committeeNames) == Err(failure.value)
      ensures failure.None? ==> WithRows(old(bills)[id], group, committeeNames).Ok?
      ensures failure.None? ==> bills == old(bills)[id := WithRows(old(bills)[id], group, committeeNames).value]
    {
      var b := bills[id];
      var acts := BuildActions(b.chamber, SortByActDate(group), RewriteFor(b.session, committeeNames));
      if acts.Err? {
        return Some(acts.error);
      }
      bills := bills[id := b.(actions := b.actions + acts.value)];
      failure := None;
    }

    /** `scrape_versions`: every listed file of a known bill becomes one of its versions. */
    method ScrapeVersions(chamber: Chamber, session: string, files: seq<string>) returns (failure: Option<Error>)
      modifies this
      ensures (bills, failure) == VersionsRun(old(bills), files, VersionsUrl(chamber, session), ParseVersionName)
      ensures committeeNames == old(committeeNames) && introducers == old(introducers)
    {
      var base := VersionsUrl(chamber, session);
      var i := 0;
      while i < |files|
        invariant 0 <= i <= |files|
        invariant VersionsRun(old(bills), files[..i], base, ParseVersionName) == (bills, None)
        invariant committeeNames == old(committeeNames) && introducers == old(introducers)
      {
        assert files[..i + 1][..i] == files[..i];
        var f := files[i];
        var v := ParseVersionName(f);
        if v.None? {
          VersionsRunPrefix(old(bills), files, base, ParseVersionName, i + 1);
          return Some(AttributeError(f));
        }
        if v.value.billId in bills {
          var b := bills[v.value.billId];
          bills := bills[v.value.billId := b.(versions := b.versions + [Version(v.value.version, base + f)])];
        }
        i := i + 1;
      }
      assert files[..i] == files;
      failure := None;
    }
  }

  // ---------------------------------------------------------------- early stops

  /** One more row read after the first `i`, when none of those failed. */
  lemma InfoRunStep(bills: map<string, Bill>, rows: seq<InfoRow>, chamber: Chamber, mk: BillMaker, i: nat, sofar: map<string, Bill>)
    requires i < |rows| && InfoRun(bills, rows[..i], chamber, mk) == (sofar, None)
    ensures InfoRun(bills, rows[..i + 1], chamber, mk) == InfoStep(sofar, rows[i], chamber, mk)
  {
    assert rows[..i + 1][..i] == rows[..i];
  }

  lemma {:induction false} InfoRunPrefix(bills: map<string, Bill>, rows: seq<InfoRow>, chamber: Chamber, mk: BillMaker, i: nat)
    requires i <= |rows| && InfoRun(bills, rows[..i], chamber, mk).1.Some?
    ensures InfoRun(bills, rows, chamber, mk) == InfoRun(bills, rows[..i], chamber, mk)
    decreases |rows| - i
  {
    if i < |rows| {
      assert rows[..i + 1][..i] == rows[..i];
      InfoRunPrefix(bills, rows, chamber, mk, i + 1);
    } else {
      assert rows[..i] == rows;
    }
  }

  lemma {:induction false} VersionsRunPrefix(bills: map<string, Bill>, files: seq<string>, base: string, parse: NameParser, i: nat)
    requires i <= |files| && VersionsRun(bills, files[..i], base, parse).1.Some?
    ensures VersionsRun(bills, files, base, parse) == VersionsRun(bills, files[..i], base, parse)
    decreases |files| - i
  {
    if i < |files| {
      assert files[..i + 1][..i] == files[..i];
      VersionsRunPrefix(bills, files, base, parse, i + 1);
    } else {
      assert files[..i] == files;
    }
  }

  lemma {:induction false} RosterRunPrefix(t: map<string, set<string>>, roster: seq<RosterEntry>, member: CellReader, i: nat)
    requires i <= |roster| && RosterRun(t, roster[..i], member).1.Some?
    ensures RosterRun(t, roster, member) == RosterRun(t, roster[..i], member)
    decreases |roster| - i
  {
    if i < |roster| {
      assert roster[..i + 1][..i] == roster[..i];
      RosterRunPrefix(t, roster, member, i + 1);
    } else {
      assert roster[..i] == roster;
    }
  }
}
