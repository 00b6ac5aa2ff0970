/**
 * The Louisiana legislator scraper (openstates/la/legislators.py): the term check and
 * the loop over the biography links (`scrape`), and the two page readers
 * (`scrape_rep`, `scrape_senator`).
 *
 * A representative's page is given as its raw text and the hrefs of its links that
 * contain "district"; a senator's page as the string value of its `Senator ...` heading
 * and, for each bold "Party" label, its next sibling. A fetch that raises an HTTP error
 * is a fetcher returning `None`.
 */
module LaLegislators {
  import opened Wrappers
  import opened Text

  const BiosUrl := "http://www.legis.state.la.us/bios.htm"
  const Franklin := "Franklin, A.B."
  const FranklinSpaced := "Franklin, A. B."
  const JrInfix := ", Jr., "
  const JrSuffix := ", Jr."
  const ThirdInfix := ", III, "
  const ThirdSuffix := ", III"
  const DistrictLink := "district"
  const PdfExtension := "pdf"
  const DistrictHeading := "District "
  const DemocratMark := "Democrat&nbsp;District"
  const RepublicanMark := "Republican&nbsp;District"
  const IndependentMark := "Independent&nbsp;District"
  const NoPartyIndependent := "No Party (Independent)"

  /** A `Legislator` as saved; the page URL is also its only source. */
  datatype Legislator = Legislator(
    term: string,
    chamber: string,
    district: string,
    fullName: string,
    party: string,
    url: string,
    sources: seq<string>)

  // ---------------------------------------------------------------- leftmost search

  /** An occurrence of a word whose first letter occurs nowhere else in it cannot start in a prefix that does not contain it. */
  lemma NoOccurrenceInPrefix(pre: string, pat: string, rest: string, k: int)
    requires pat != [] && pat[0] !in pat[1..] && !Contains(pre, pat) && 0 <= k < |pre|
    ensures !OccursAt(pre + pat + rest, pat, k)
  {
    var s := pre + pat + rest;
    ContainsIff(pre, pat);
    if k + |pat| <= |pre| {
      assert !OccursAt(pre, pat, k);
      assert pre[k..k + |pat|] == s[k..k + |pat|];
    } else if k + |pat| <= |s| {
      var t := |pre| - k;
      assert pat[t] == pat[1..][t - 1];
      assert s[k..k + |pat|][t] == s[|pre|] == pat[0];
    }
  }

  // ---------------------------------------------------------------- representatives

  /** The name fixes for names that confuse the name parser; the first that applies wins. */
  function RepName(name: string): string {
    if name == Franklin then FranklinSpaced
    else if Contains(name, JrInfix) then Replace(name, JrInfix, " ") + JrSuffix
    else if Contains(name, ThirdInfix) then Replace(name, ThirdInfix, " ") + ThirdSuffix
    else name
  }

  lemma NoCommaNoInfix(s: string, pat: string)
    requires pat != [] && pat[0] == ',' && ',' !in s
    ensures !Contains(s, pat)
  {
    ContainsIff(s, pat);
    forall i | 0 <= i && i + |pat| <= |s|
      ensures !OccursAt(s, pat, i)
    {
      assert s[i..i + |pat|][0] == s[i];
    }
  }

  /** "<last>, Jr., <first>" becomes "<last> <first>, Jr." for names without further commas. */
  lemma RepNameJr(last: string, first: string)
    requires ',' !in last && ',' !in first
    ensures RepName(last + JrInfix + first) == last + " " + first + JrSuffix
  {
    var name := last + JrInfix + first;
    ContainsInfix(last, JrInfix, first);
    FranklinHasNoInfix(JrInfix);
    assert name != Franklin;
    InfixReplaced(last, JrInfix, first);
  }

  /** "<last>, III, <first>" becomes "<last> <first>, III" for names without further commas. */
  lemma RepNameThird(last: string, first: string)
    requires ',' !in last && ',' !in first
    ensures RepName(last + ThirdInfix + first) == last + " " + first + ThirdSuffix
  {
    var name := last + ThirdInfix + first;
    ContainsInfix(last, ThirdInfix, first);
    FranklinHasNoInfix(ThirdInfix);
    assert name != Franklin;
    RepNameNoJr(last, ThirdInfix, first);
    InfixReplaced(last, ThirdInfix, first);
  }

  /** Replacing an infix that starts with a comma, in a name whose parts have none, is a single replacement. */
  lemma InfixReplaced(last: string, infix: string, first: string)
    requires infix != [] && infix[0] == ',' && ',' !in last && ',' !in first
    ensures Replace(last + infix + first, infix, " ") == last + " " + first
  {
    assert last + infix + first == last + (infix + first);
    ReplaceAppendFree(last, infix + first, infix, " ");
    ReplaceAtStart(infix, first, " ");
    NoCommaNoInfix(first, infix);
    ReplaceAbsent(first, infix, " ");
  }

  /** Neither infix occurs in the one name fixed outright. */
  lemma FranklinHasNoInfix(infix: string)
    requires infix == JrInfix || infix == ThirdInfix
    ensures !Contains(Franklin, infix)
  {
    ContainsIff(Franklin, infix);
    var head := Franklin[..8];
    assert head == "Franklin";
    forall i | 0 <= i && i + 7 <= |Franklin|
      ensures !OccursAt(Franklin, infix, i)
    {
      assert Franklin[i..i + 7][0] == head[i] != infix[0];
    }
  }

  /** ", Jr., " does not occur in "<last>, III, <first>" when neither part has a comma. */
  lemma RepNameNoJr(last: string, mid: string, first: string)
    requires mid == ThirdInfix && ',' !in last && ',' !in first
    ensures !Contains(last + mid + first, JrInfix)
  {
    var s := last + mid + first;
    ContainsIff(s, JrInfix);
    forall i | 0 <= i && i + 7 <= |s|
      ensures !OccursAt(s, JrInfix, i)
    {
      var w := s[i..i + 7];
      if i < |last| {
        assert w[0] == last[i] != JrInfix[0];
      } else if i == |last| {
        assert w[2] == 'I' != JrInfix[2];
      } else if i < |last| + 5 {
        assert w[0] == mid[i - |last|] != JrInfix[0];
      } else if i == |last| + 5 {
        assert w[5] == first[3] != JrInfix[5];
      } else if i == |last| + 6 {
        assert w[0] == ' ' != JrInfix[0];
      } else {
        assert w[0] == first[i - |last| - 7] != JrInfix[0];
      }
    }
  }

  /** A name needing no fix is kept as it is. */
  lemma RepNamePlain(name: string)
    requires ',' !in name
    ensures RepName(name) == name
  {
    NoCommaNoInfix(name, JrInfix);
    NoCommaNoInfix(name, ThirdInfix);
    assert Franklin[8] == ',';
  }

  /**
   * The match of `re.search("district(\d+).pdf", href)` starting at `i`, with its
   * backtracking: the greedy digit run followed by any character but a newline and "pdf",
   * or, giving back one digit as the unescaped dot, the shorter run followed by "pdf".
   */
  function RepDistrictAt(s: string, i: nat): Option<string>
    requires i <= |s|
  {
    if !OccursAt(s, DistrictLink, i) then None
    else
      var j := i + |DistrictLink|;
      var e := DigitsEnd(s, j);
      if e == j then None
      else if e < |s| && s[e] != '\n' && OccursAt(s, PdfExtension, e + 1) then Some(s[j..e])
      else if e - j >= 2 && OccursAt(s, PdfExtension, e) then Some(s[j..e - 1])
      else None
  }

  /** The leftmost match at or after `i`, as `re.search` finds it. */
  function SearchRepDistrict(s: string, i: nat): Option<string>
    requires i <= |s|
    decreases |s| - i
  {
    if RepDistrictAt(s, i).Some? then RepDistrictAt(s, i)
    else if i == |s| then None
    else SearchRepDistrict(s, i + 1)
  }

  /** A captured district is a non-empty digit run. */
  lemma {:induction false} SearchRepDistrictDigits(s: string, i: nat)
    requires i <= |s|
    ensures var r := SearchRepDistrict(s, i); r.Some? ==> r.value != [] && AllDigits(r.value)
    decreases |s| - i
  {
    if RepDistrictAt(s, i).Some? {
      var j := i + |DistrictLink|;
      DigitsEndSpec(s, j);
      var e := DigitsEnd(s, j);
      var r := RepDistrictAt(s, i).value;
      assert SearchRepDistrict(s, i) == Some(r);
      if r != s[j..e] {
        assert e - j >= 2 && r == s[j..e - 1];
        assert forall k :: 0 <= k < |r| ==> r[k] == s[j..e][k];
      }
    } else if i < |s| {
      SearchRepDistrictDigits(s, i + 1);
    }
  }

  lemma {:induction false} SearchSkipsPrefix(pre: string, rest: string, k: nat)
    requires k <= |pre| && !Contains(pre, DistrictLink)
    ensures SearchRepDistrict(pre + DistrictLink + rest, k) == SearchRepDistrict(pre + DistrictLink + rest, |pre|)
    decreases |pre| - k
  {
    if k < |pre| {
      assert DistrictLink[1..] == "istrict";
      NoOccurrenceInPrefix(pre, DistrictLink, rest, k);
      SearchSkipsPrefix(pre, rest, k + 1);
    }
  }

  /** The district of a link "<pre>district<digits>.pdf<post>", when `pre` holds no "district". */
  lemma RepDistrictHref(pre: string, d: string, post: string)
    requires d != [] && AllDigits(d) && !Contains(pre, DistrictLink)
    ensures SearchRepDistrict(pre + DistrictLink + d + ".pdf" + post, 0) == Some(d)
  {
    var s := pre + DistrictLink + d + ".pdf" + post;
    var rest := d + ".pdf" + post;
    assert s == pre + DistrictLink + rest;
    SearchSkipsPrefix(pre, rest, 0);
    var j := |pre| + 8;
    var e := j + |d|;
    assert s[|pre|..j] == DistrictLink;
    assert s[j..e] == d;
    assert s[e] == '.';
    assert s[e + 1..e + 4] == PdfExtension;
    DigitsEndAt(s, j, e);
  }

  /** The dot is not escaped in the pattern: a link "district12pdf" gives district "1". */
  lemma RepDistrictUnescapedDot()
    ensures SearchRepDistrict("district12pdf", 0) == Some("1")
  {
    var s := "district12pdf";
    assert s[..8] == DistrictLink;
    assert s[10..13] == PdfExtension;
    assert AllDigits(s[8..10]);
    assert s[8..9] == "1";
    assert !OccursAt(s, PdfExtension, 11);
    DigitsEndAt(s, 8, 10);
  }

  /** The party found in the raw page; the first mark present wins, and there is always one. */
  function RepParty(text: string): (party: string)
    ensures party != []
  {
    if Contains(text, DemocratMark) then "Democratic"
    else if Contains(text, RepublicanMark) then "Republican"
    else if Contains(text, IndependentMark) then "Independent"
    else "Other"
  }

  /** The precedence of the marks, in both directions. */
  lemma RepPartySpec(text: string)
    ensures RepParty(text) == "Democratic" <==> Contains(text, DemocratMark)
    ensures RepParty(text) == "Republican" <==> !Contains(text, DemocratMark) && Contains(text, RepublicanMark)
    ensures RepParty(text) == "Independent" <==>
              !Contains(text, DemocratMark) && !Contains(text, RepublicanMark) && Contains(text, IndependentMark)
    ensures RepParty(text) == "Other" <==>
              !Contains(text, DemocratMark) && !Contains(text, RepublicanMark) && !Contains(text, IndependentMark)
  {
  }

  datatype RepPage = RepPage(text: string, districtHrefs: seq<string>)

  /** `scrape_rep` on a fetched page. */
  function RepOf(name: string, term: string, url: string, page: RepPage): Result<Legislator> {
    if page.districtHrefs == [] then Err(IndexError("//a[contains(@href, 'district')]"))
    else
      var href := page.districtHrefs[0];
      var district := SearchRepDistrict(href, 0);
      if district.None? then Err(AttributeError("group"))
      else Ok(Legislator(term, "lower", district.value, RepName(name), RepParty(page.text), url, [url]))
  }

  /** A saved representative sits in the lower chamber, with a digit-run district taken from the first district link. */
  lemma RepOfSpec(name: string, term: string, url: string, page: RepPage)
    ensures var r := RepOf(name, term, url, page);
      && (page.districtHrefs == [] ==> r.Err?)
      && (r.Ok? ==>
            && r.value.chamber == "lower" && r.value.sources == [url] && r.value.url == url
            && r.value.district != [] && AllDigits(r.value.district)
            && Some(r.value.district) == SearchRepDistrict(page.districtHrefs[0], 0)
            && r.value.fullName == RepName(name) && r.value.party == RepParty(page.text))
  {
    if page.districtHrefs != [] {
      SearchRepDistrictDigits(page.districtHrefs[0], 0);
    }
  }

  // ---------------------------------------------------------------- senators

  /** A match of `re.search(r'District (\d+)', heading)` at `i`: the greedy digit run after "District ". */
  function SenateDistrictAt(s: string, i: nat): Option<string>
    requires i <= |s|
  {
    if OccursAt(s, DistrictHeading, i) && DigitsEnd(s, i + |DistrictHeading|) > i + |DistrictHeading|
    then Some(s[i + |DistrictHeading|..DigitsEnd(s, i + |DistrictHeading|)])
    else None
  }

  function SearchSenateDistrict(s: string, i: nat): Option<string>
    requires i <= |s|
    decreases |s| - i
  {
    if SenateDistrictAt(s, i).Some? then SenateDistrictAt(s, i)
    else if i == |s| then None
    else SearchSenateDistrict(s, i + 1)
  }

  lemma {:induction false} SenateSkipsPrefix(pre: string, rest: string, k: nat)
    requires k <= |pre| && !Contains(pre, DistrictHeading)
    ensures SearchSenateDistrict(pre + DistrictHeading + rest, k) == SearchSenateDistrict(pre + DistrictHeading + rest, |pre|)
    decreases |pre| - k
  {
    if k < |pre| {
      assert DistrictHeading[1..] == "istrict ";
      NoOccurrenceInPrefix(pre, DistrictHeading, rest, k);
      SenateSkipsPrefix(pre, rest, k + 1);
    }
  }

  /** The district of a heading "<pre>District <digits><post>": the whole digit run, when `pre` holds no "District ". */
  lemma SenateDistrictHeading(pre: string, d: string, post: string)
    requires d != [] && AllDigits(d) && !Contains(pre, DistrictHeading)
    requires post == [] || !IsDigit(post[0])
    ensures SearchSenateDistrict(pre + DistrictHeading + d + post, 0) == Some(d)
  {
    var s := pre + DistrictHeading + d + post;
    var rest := d + post;
    assert s == pre + DistrictHeading + rest;
    SenateSkipsPrefix(pre, rest, 0);
    var j := |pre| + 9;
    var e := j + |d|;
    assert s[|pre|..j] == DistrictHeading;
    assert s[j..e] == d;
    assert e < |s| ==> s[e] == post[0];
    DigitsEndAt(s, j, e);
  }

  /** A captured senate district is a non-empty digit run. */
  lemma {:induction false} SearchSenateDistrictDigits(s: string, i: nat)
    requires i <= |s|
    ensures var r := SearchSenateDistrict(s, i); r.Some? ==> r.value != [] && AllDigits(r.value)
    decreases |s| - i
  {
    if SenateDistrictAt(s, i).Some? {
      DigitsEndSpec(s, i + |DistrictHeading|);
    } else if i < |s| {
      SearchSenateDistrictDigits(s, i + 1);
    }
  }

  /** The next sibling of a "Party" label, when it has one, and that sibling's tail. */
  datatype LabelNext = NoNext | Next(tail: Option<string>)

  datatype SenatorPage = SenatorPage(heading: string, partyLabels: seq<LabelNext>)

  /** The senate party names: two are expanded, any other value passes through. */
  function SenatePartyName(p: string): string {
    if p == NoPartyIndependent then "Independent"
    else if p == "Democrat" then "Democratic"
    else p
  }

  /** The party of a senator page: "N/A" without a label; a label without a sibling or tail raises. */
  function SenateParty(labels: seq<LabelNext>): Result<string> {
    if labels == [] then Ok(SenatePartyName("N/A"))
    else match labels[0]
      case NoNext => Err(AttributeError("tail"))
      case Next(tail) =>
        if tail.None? then Err(AttributeError("strip")) else Ok(SenatePartyName(TextStrip(tail.value)))
  }

  /** The senate party in both directions: a missing label is "N/A", and the two names are mapped, the rest kept. */
  lemma SenatePartySpec(labels: seq<LabelNext>, tail: string)
    ensures labels == [] ==> SenateParty(labels) == Ok("N/A")
    ensures SenateParty([Next(Some(" " + NoPartyIndependent + " "))] + labels) == Ok("Independent")
    ensures SenateParty([Next(Some("Democrat"))] + labels) == Ok("Democratic")
    ensures TextStrip(tail) != NoPartyIndependent && TextStrip(tail) != "Democrat" ==>
              SenateParty([Next(Some(tail))] + labels) == Ok(TextStrip(tail))
  {
    assert Unpadded(NoPartyIndependent);
    assert Trimmed(NoPartyIndependent, IsWhite2) && Trimmed("Democrat", IsWhite2);
    TextStripPadded(" ", NoPartyIndependent, " ");
    TextStripPadded([], "Democrat", []);
    assert [] + "Democrat" + [] == "Democrat";
  }

  /** `scrape_senator` on a fetched page. */
  function SenatorOf(name: string, term: string, url: string, page: SenatorPage): Result<Legislator> {
    var district := SearchSenateDistrict(page.heading, 0);
    if district.None? then Err(AttributeError("group"))
    else
      var party :- SenateParty(page.partyLabels);
      Ok(Legislator(term, "upper", district.value, name, party, url, [url]))
  }

  /** A saved senator sits in the upper chamber with a digit-run district and keeps the listed name. */
  lemma SenatorOfSpec(name: string, term: string, url: string, page: SenatorPage)
    ensures var r := SenatorOf(name, term, url, page);
      && (SearchSenateDistrict(page.heading, 0).None? ==> r == Err(AttributeError("group")))
      && (r.Ok? ==>
            && r.value.chamber == "upper" && r.value.sources == [url] && r.value.url == url
            && r.value.district != [] && AllDigits(r.value.district) && r.value.fullName == name
            && Ok(r.value.party) == SenateParty(page.partyLabels))
  {
    SearchSenateDistrictDigits(page.heading, 0);
  }

  // ---------------------------------------------------------------- the scrape

  /** A link of the biography page: its href (made absolute) and its text. */
  datatype Anchor = Anchor(href: string, text: Option<string>)

  /** The state of the scrape: the legislators saved, the pages that raised HTTP errors, and the error that stopped it. */
  datatype Run = Run(saved: seq<Legislator>, warned: seq<string>, failure: Option<Error>)

  /** The fetched pages; `None` is an HTTP error. */
  datatype Fetchers = Fetchers(reps: string -> Option<RepPage>, senators: string -> Option<SenatorPage>)

  /** The substring a chamber's links contain. */
  function LinkWord(chamber: string): string {
    if chamber == "upper" then "senate" else "house"
  }

  /** The outcome of one legislator: a failed fetch is only a warning. */
  function Visit(chamber: string, term: string, name: string, url: string, f: Fetchers): (Option<Result<Legislator>>) {
    if chamber == "upper" then
      var page := f.senators(url);
      if page.None? then None else Some(SenatorOf(name, term, url, page.value))
    else
      var page := f.reps(url);
      if page.None? then None else Some(RepOf(name, term, url, page.value))
  }

  /** One link of the biography page. */
  function Step(acc: Run, chamber: string, term: string, a: Anchor, f: Fetchers): Run {
    if acc.failure.Some? || !Contains(a.href, LinkWord(chamber)) then acc
    else if a.text.None? then acc.(failure := Some(AttributeError("strip")))
    else if !IsAscii(TextStrip(a.text.value)) then acc.(failure := Some(UnicodeEncodeError(TextStrip(a.text.value))))
    else match Visit(chamber, term, TextStrip(a.text.value), a.href, f)
      case None => acc.(warned := acc.warned + [a.href])
      case Some(Err(e)) => acc.(failure := Some(e))
      case Some(Ok(leg)) => acc.(saved := acc.saved + [leg])
  }

  /**
   * `decode('utf8')` of the stripped name: a `unicode` name that keeps a character outside
   * ASCII raises, and the scrape ends there; any other name, `&nbsp;` padding removed, is visited.
   */
  lemma NameDecode(acc: Run, chamber: string, term: string, a: Anchor, f: Fetchers)
    requires acc.failure.None? && Contains(a.href, LinkWord(chamber)) && a.text.Some?
    ensures var r := Step(acc, chamber, term, a, f);
      (r.failure.Some? && r.failure.value.UnicodeEncodeError?) <==> !IsAscii(TextStrip(a.text.value))
  {
  }

  function RunFrom(acc: Run, chamber: string, term: string, links: seq<Anchor>, f: Fetchers): Run
    decreases |links|
  {
    if links == [] then acc else RunFrom(Step(acc, chamber, term, links[0], f), chamber, term, links[1..], f)
  }

  /** `scrape`: any term but the last configured one has no data; otherwise every link of the chamber, in order. */
  function Scrape(chamber: string, term: string, terms: seq<string>, links: seq<Anchor>, f: Fetchers): Run {
    if terms == [] then Run([], [], Some(IndexError("terms")))
    else if term != terms[|terms| - 1] then Run([], [], Some(NoDataForPeriod(term)))
    else RunFrom(Run([], [], None), chamber, term, links, f)
  }

  /** No data is scraped for a term other than the last configured one. */
  lemma ScrapeTermCheck(chamber: string, term: string, terms: seq<string>, links: seq<Anchor>, f: Fetchers)
    requires terms != [] && term != terms[|terms| - 1]
    ensures Scrape(chamber, term, terms, links, f) == Run([], [], Some(NoDataForPeriod(term)))
  {
  }

  lemma {:induction false} RunFromAppend(acc: Run, chamber: string, term: string, xs: seq<Anchor>, ys: seq<Anchor>, f: Fetchers)
    ensures RunFrom(acc, chamber, term, xs + ys, f) == RunFrom(RunFrom(acc, chamber, term, xs, f), chamber, term, ys, f)
    decreases |xs|
  {
    if xs != [] {
      assert (xs + ys)[0] == xs[0];
      assert (xs + ys)[1..] == xs[1..] + ys;
      RunFromAppend(Step(acc, chamber, term, xs[0], f), chamber, term, xs[1..], ys, f);
    } else {
      assert xs + ys == ys;
    }
  }

  /** What is saved and what stops the scrape do not depend on the warnings logged before. */
  lemma {:induction false} RunFromWarnings(acc: Run, w: seq<string>, chamber: string, term: string, links: seq<Anchor>, f: Fetchers)
    ensures var r := RunFrom(acc, chamber, term, links, f);
      var q := RunFrom(acc.(warned := w), chamber, term, links, f);
      r.saved == q.saved && r.failure == q.failure
    decreases |links|
  {
    if links != [] {
      var next := Step(acc, chamber, term, links[0], f);
      var nextW := Step(acc.(warned := w), chamber, term, links[0], f);
      assert nextW == next.(warned := nextW.warned);
      RunFromWarnings(next, nextW.warned, chamber, term, links[1..], f);
    }
  }

  /**
   * A legislator whose page raises an HTTP error is only logged: the legislators saved
   * and the failure are those of the scrape without that link.
   */
  lemma HttpErrorIsolated(acc: Run, chamber: string, term: string, xs: seq<Anchor>, a: Anchor, ys: seq<Anchor>, f: Fetchers)
    requires a.text.Some? && IsAscii(TextStrip(a.text.value)) && Visit(chamber, term, TextStrip(a.text.value), a.href, f).None?
    ensures var r := RunFrom(acc, chamber, term, xs + [a] + ys, f);
      var q := RunFrom(acc, chamber, term, xs + ys, f);
      r.saved == q.saved && r.failure == q.failure
  {
    RunFromAppend(acc, chamber, term, xs + [a], ys, f);
    RunFromAppend(acc, chamber, term, xs, [a], f);
    RunFromAppend(acc, chamber, term, xs, ys, f);
    var mid := RunFrom(acc, chamber, term, xs, f);
    assert [a][1..] == [];
    var after := Step(mid, chamber, term, a, f);
    assert after == mid || after == mid.(warned := mid.warned + [a.href]);
    RunFromWarnings(mid, after.warned, chamber, term, ys, f);
    assert mid.(warned := after.warned) == after;
  }

  /** Every legislator saved belongs to the scraped term and chamber and has its page as its source. */
  lemma {:induction false} RunFromSaved(acc: Run, chamber: string, term: string, links: seq<Anchor>, f: Fetchers)
    requires forall k :: 0 <= k < |acc.saved| ==> Provenanced(acc.saved[k], chamber, term)
    ensures var r := RunFrom(acc, chamber, term, links, f);
      |acc.saved| <= |r.saved| && r.saved[..|acc.saved|] == acc.saved
      && forall k :: 0 <= k < |r.saved| ==> Provenanced(r.saved[k], chamber, term)
    decreases |links|
  {
    if links != [] {
      var next := Step(acc, chamber, term, links[0], f);
      if next.saved != acc.saved {
        var a := links[0];
        var name := TextStrip(a.text.value);
        if chamber == "upper" {
          SenatorOfSpec(name, term, a.href, f.senators(a.href).value);
        } else {
          RepOfSpec(name, term, a.href, f.reps(a.href).value);
        }
      }
      RunFromSaved(next, chamber, term, links[1..], f);
      var r := RunFrom(next, chamber, term, links[1..], f);
      assert r.saved[..|next.saved|][..|acc.saved|] == r.saved[..|acc.saved|];
    }
  }

  predicate Provenanced(leg: Legislator, chamber: string, term: string) {
    && leg.term == term && leg.sources == [leg.url]
    && leg.chamber == (if chamber == "upper" then "upper" else "lower")
    && leg.district != [] && AllDigits(leg.district)
  }

  /** Every legislator `scrape` saves has the scraped term, the scraped chamber, a digit-run district and its page as source. */
  lemma ScrapeSaved(chamber: string, term: string, terms: seq<string>, links: seq<Anchor>, f: Fetchers)
    ensures var r := Scrape(chamber, term, terms, links, f);
      forall k :: 0 <= k < |r.saved| ==> Provenanced(r.saved[k], chamber, term)
  {
    if terms != [] && term == terms[|terms| - 1] {
      RunFromSaved(Run([], [], None), chamber, term, links, f);
    }
  }
}
