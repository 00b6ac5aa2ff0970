/**
 * The Kentucky legislator scraper (openstates/ky/legislators.py): a member page read
 * into a legislator (`scrape_member`), the text flattening of a contact row
 * (`get_child_text`), and the loop over the members of one chamber (`scrape`).
 *
 * A member page is given as its member tables (the text of the first `strong` and the
 * texts of the `b` descendants), the sources of its images, and its contact rows, each
 * as the text and tail of its descendants in document order.
 */
module KyLegislators {
  import opened Wrappers
  import opened Text

  const SenateList := "http://www.lrc.ky.gov/senate/senmembers.htm"
  const HouseList := "http://www.lrc.ky.gov/house/hsemembers.htm"
  const DistrictWord := "District"
  const FrankfortLabel := "Frankfort Address(es)"
  const PhoneLabel := "Phone Number(s)"
  const AnnexPrefix := "Annex:"

  /** The member list of a chamber: the Senate's for `upper`, the House's for anything else. */
  function ListUrl(chamber: string): string {
    if chamber == "upper" then SenateList else HouseList
  }

  // ---------------------------------------------------------------- name and party

  /** Python `xs[1:-1]`: all but the first and the last element. */
  function Inner(xs: seq<string>): seq<string> {
    if |xs| <= 2 then [] else xs[1..|xs| - 1]
  }

  /**
   * `' '.join(strong.split(' ')[1:-1]).strip()`: the words between the title and the party,
   * stripped as a `unicode` when the heading text is one.
   */
  function FullName(strong: string): string {
    StripOf(Join(Inner(Split(strong, ' ')), " "), !IsAscii(strong))
  }

  /** `re.sub(r'\(|\)', '', s)`: `s` without its parentheses. */
  function RemoveParens(s: string): (r: string)
    ensures |r| <= |s|
  {
    if s == [] then []
    else (if s[0] == '(' || s[0] == ')' then [] else [s[0]]) + RemoveParens(s[1..])
  }

  /** The party words: `R`, `D` and `I` are expanded, anything else passes through. */
  function PartyName(code: string): string {
    if code == "R" then "Republican"
    else if code == "D" then "Democratic"
    else if code == "I" then "Independent"
    else code
  }

  /** The party of a member: the last word of the `strong` text, without parentheses, expanded. */
  function PartyOf(strong: string): string {
    var words := Split(strong, ' ');
    PartyName(RemoveParens(words[|words| - 1]))
  }

  /** Removing parentheses leaves none, and keeps every other character in order. */
  lemma {:induction false} RemoveParensSpec(s: string)
    ensures '(' !in RemoveParens(s) && ')' !in RemoveParens(s)
    ensures '(' !in s && ')' !in s ==> RemoveParens(s) == s
  {
    if s != [] {
      RemoveParensSpec(s[1..]);
      assert s == [s[0]] + s[1..];
    }
  }

  lemma {:induction false} RemoveParensAround(s: string)
    ensures RemoveParens("(" + s + ")") == RemoveParens(s)
  {
    var t := "(" + s + ")";
    assert t[1..] == s + ")";
    RemoveParensAppend(s, ")");
    assert RemoveParens(")") == [];
    assert RemoveParens(s) + [] == RemoveParens(s);
  }

  lemma {:induction false} RemoveParensAppend(a: string, b: string)
    ensures RemoveParens(a + b) == RemoveParens(a) + RemoveParens(b)
  {
    if a != [] {
      assert (a + b)[1..] == a[1..] + b;
      RemoveParensAppend(a[1..], b);
    } else {
      assert a + b == b;
    }
  }

  /** Which words give each party: its code or its own name; any other word is kept. */
  lemma PartyNameFrom(code: string)
    ensures PartyName(code) == "Republican" <==> code == "R" || code == "Republican"
    ensures PartyName(code) == "Democratic" <==> code == "D" || code == "Democratic"
    ensures PartyName(code) == "Independent" <==> code == "I" || code == "Independent"
    ensures code != "R" && code != "D" && code != "I" ==> PartyName(code) == code
  {
  }

  /**
   * A heading "<title> <name words> (<party>)" of words without spaces gives back the
   * name words, joined by single spaces and stripped, and the expanded party.
   */
  lemma HeadingRead(title: string, names: seq<string>, party: string)
    requires ' ' !in title && ' ' !in party && '(' !in party && ')' !in party
    requires forall k :: 0 <= k < |names| ==> ' ' !in names[k]
    ensures var strong := Join([title] + names + ["(" + party + ")"], " ");
      FullName(strong) == StripOf(Join(names, " "), !IsAscii(strong)) && PartyOf(strong) == PartyName(party)
  {
    var words := [title] + names + ["(" + party + ")"];
    HeadingWords(title, names, party);
    SplitJoin(words, ' ');
    assert Split(Join(words, " "), ' ') == words;
    assert Inner(words) == names;
    assert words[|words| - 1] == "(" + party + ")";
    RemoveParensAround(party);
    RemoveParensSpec(party);
  }

  lemma HeadingWords(title: string, names: seq<string>, party: string)
    requires ' ' !in title && ' ' !in party
    requires forall k :: 0 <= k < |names| ==> ' ' !in names[k]
    ensures var words := [title] + names + ["(" + party + ")"];
      forall k :: 0 <= k < |words| ==> ' ' !in words[k]
  {
    var words := [title] + names + ["(" + party + ")"];
    forall k | 0 <= k < |words|
      ensures ' ' !in words[k]
    {
      if k == 0 {
      } else if k < |words| - 1 {
        assert words[k] == names[k - 1];
      } else {
        assert words[k] == "(" + party + ")";
      }
    }
  }

  // ---------------------------------------------------------------- the member record

  /** The `member` dict as `scrape_member` fills it; a key not yet set is `None` (for the roles: empty). */
  datatype Member = Member(
    photoUrl: Option<string>,
    fullName: string,
    party: string,
    district: Option<string>,
    roles: seq<string>,
    officeAddress: Option<string>,
    officePhone: Option<string>)

  /** The last of the values that are set, or `d` when none is. */
  function Latest(xs: seq<Option<string>>, d: Option<string>): Option<string> {
    if xs == [] then d
    else if xs[|xs| - 1].Some? then xs[|xs| - 1]
    else Latest(xs[..|xs| - 1], d)
  }

  // ---------------------------------------------------------------- bold items

  /** The district an item names: its last space-separated word, stripped as the type of the item's text. */
  function DistrictOfItem(item: string): string {
    var words := Split(item, ' ');
    StripOf(words[|words| - 1], !IsAscii(item))
  }

  /** One bold item: none is skipped, one naming a "District" sets the district, any other is a role. */
  function BoldStep(m: Member, item: Option<string>): Member {
    if item.None? then m
    else if Contains(item.value, DistrictWord) then m.(district := Some(DistrictOfItem(item.value)))
    else m.(roles := m.roles + [item.value])
  }

  function Bolds(m: Member, items: seq<Option<string>>): Member {
    if items == [] then m else BoldStep(Bolds(m, items[..|items| - 1]), items[|items| - 1])
  }

  /** The items that are roles, in order. */
  function RoleItems(items: seq<Option<string>>): seq<string> {
    if items == [] then []
    else
      var item := items[|items| - 1];
      RoleItems(items[..|items| - 1]) + if item.Some? && !Contains(item.value, DistrictWord) then [item.value] else []
  }

  /** What each item says about the district, if anything. */
  function DistrictItems(items: seq<Option<string>>): (r: seq<Option<string>>)
    ensures |r| == |items|
  {
    if items == [] then []
    else
      var item := items[|items| - 1];
      DistrictItems(items[..|items| - 1])
      + [if item.Some? && Contains(item.value, DistrictWord) then Some(DistrictOfItem(item.value)) else None]
  }

  /**
   * The bold items append every role item to the roles, in document order, and leave
   * the district of the last item naming one (or the old district if none does).
   */
  lemma {:induction false} BoldsSpec(m: Member, items: seq<Option<string>>)
    ensures Bolds(m, items) ==
              m.(roles := m.roles + RoleItems(items), district := Latest(DistrictItems(items), m.district))
  {
    if items == [] {
      assert m.roles + [] == m.roles;
    } else {
      var init := items[..|items| - 1];
      var item := items[|items| - 1];
      BoldsSpec(m, init);
      assert DistrictItems(items)[..|items| - 1] == DistrictItems(init);
      if item.Some? && !Contains(item.value, DistrictWord) {
        assert RoleItems(items) == RoleItems(init) + [item.value];
        assert m.roles + RoleItems(init) + [item.value] == m.roles + RoleItems(items);
      } else {
        assert RoleItems(items) == RoleItems(init) + [];
        assert RoleItems(init) + [] == RoleItems(init);
      }
    }
  }

  // ---------------------------------------------------------------- get_child_text

  /** A descendant of a node: its text and its tail. */
  datatype Node = Node(text: Option<string>, tail: Option<string>)

  /** A text kept by `get_child_text`: stripped, and only when something is left. */
  function Piece(t: Option<string>): seq<string> {
    if t.Some? && |TextStrip(t.value)| > 0 then [TextStrip(t.value)] else []
  }

  /** `get_child_text`: the stripped non-empty texts and tails of the descendants, in document order. */
  function ChildText(nodes: seq<Node>): seq<string> {
    if nodes == [] then []
    else
      var n := nodes[|nodes| - 1];
      ChildText(nodes[..|nodes| - 1]) + Piece(n.text) + Piece(n.tail)
  }

  /**
   * Every string `get_child_text` returns is non-empty and has no whitespace at either end
   * (no Unicode whitespace either, for a `unicode`); there are at most two per descendant.
   */
  lemma {:induction false} ChildTextClean(nodes: seq<Node>)
    ensures |ChildText(nodes)| <= 2 * |nodes|
    ensures forall k :: 0 <= k < |ChildText(nodes)| ==> ChildText(nodes)[k] != [] && TextTrimmed(ChildText(nodes)[k])
  {
    if nodes != [] {
      var n := nodes[|nodes| - 1];
      ChildTextClean(nodes[..|nodes| - 1]);
      if n.text.Some? {
        TextStripSpec(n.text.value);
      }
      if n.tail.Some? {
        TextStripSpec(n.tail.value);
      }
    }
  }

  /** A text is dropped exactly when it is blank: ASCII whitespace, or Unicode whitespace such as `&nbsp;` in a `unicode`. */
  lemma PieceBlank(t: string)
    ensures Piece(Some(t)) == [] <==> BlankText(t)
  {
    TextStripBlank(t);
  }

  /** Text already clean is kept as it is. */
  lemma PieceClean(t: string)
    requires t != [] && TextTrimmed(t)
    ensures Piece(Some(t)) == [t]
  {
    TextStripFixed(t);
  }

  method GetChildText(nodes: seq<Node>) returns (text: seq<string>)
    ensures text == ChildText(nodes)
  {
    text := [];
    var i := 0;
    while i < |nodes|
      invariant 0 <= i <= |nodes|
      invariant text == ChildText(nodes[..i])
    {
      assert nodes[..i + 1][..i] == nodes[..i];
      var item := nodes[i];
      ghost var before := text;
      if item.text.Some? {
        var s := TextStrip(item.text.value);
        if |s| > 0 {
          text := text + [s];
        }
      }
      assert text == before + Piece(item.text);
      if item.tail.Some? {
        var s := TextStrip(item.tail.value);
        if |s| > 0 {
          text := text + [s];
        }
      }
      assert text == before + Piece(item.text) + Piece(item.tail);
      i := i + 1;
    }
    assert nodes[..i] == nodes;
  }

  // ---------------------------------------------------------------- contact rows

  /** The first entry starting with "Annex:", with every "Annex:" removed and stripped. */
  function FirstAnnex(entries: seq<string>): Option<string> {
    if entries == [] then None
    else if StartsWith(entries[0], AnnexPrefix) then Some(TextStrip(Replace(entries[0], AnnexPrefix, "")))
    else FirstAnnex(entries[1..])
  }

  /** The address a row gives: the lines after a "Frankfort Address(es)" label, joined by newlines. */
  function RowAddress(rt: seq<string>): Option<string> {
    if |rt| > 0 && rt[0] == FrankfortLabel then Some(Join(rt[1..], "\n")) else None
  }

  /** The phone a row gives: the first Annex entry of a "Phone Number(s)" row. */
  function RowPhone(rt: seq<string>): Option<string> {
    if |rt| > 0 && rt[0] == PhoneLabel then FirstAnnex(rt) else None
  }

  function RowStep(m: Member, row: seq<Node>): Member {
    var rt := ChildText(row);
    var m := if RowAddress(rt).Some? then m.(officeAddress := RowAddress(rt)) else m;
    if RowPhone(rt).Some? then m.(officePhone := RowPhone(rt)) else m
  }

  function Rows(m: Member, rows: seq<seq<Node>>): Member {
    if rows == [] then m else RowStep(Rows(m, rows[..|rows| - 1]), rows[|rows| - 1])
  }

  function Addresses(rows: seq<seq<Node>>): (r: seq<Option<string>>)
    ensures |r| == |rows|
  {
    if rows == [] then [] else Addresses(rows[..|rows| - 1]) + [RowAddress(ChildText(rows[|rows| - 1]))]
  }

  function Phones(rows: seq<seq<Node>>): (r: seq<Option<string>>)
    ensures |r| == |rows|
  {
    if rows == [] then [] else Phones(rows[..|rows| - 1]) + [RowPhone(ChildText(rows[|rows| - 1]))]
  }

  /** The contact rows set the address of the last address row and the phone of the last phone row with an Annex entry, and nothing else. */
  lemma {:induction false} RowsSpec(m: Member, rows: seq<seq<Node>>)
    ensures Rows(m, rows) ==
              m.(officeAddress := Latest(Addresses(rows), m.officeAddress), officePhone := Latest(Phones(rows), m.officePhone))
  {
    if rows != [] {
      var init := rows[..|rows| - 1];
      RowsSpec(m, init);
      assert Addresses(rows)[..|rows| - 1] == Addresses(init);
      assert Phones(rows)[..|rows| - 1] == Phones(init);
    }
  }

  /** The first Annex entry is found: the entries before it do not start with "Annex:". */
  lemma {:induction false} FirstAnnexSpec(entries: seq<string>)
    ensures FirstAnnex(entries).None? <==> forall k :: 0 <= k < |entries| ==> !StartsWith(entries[k], AnnexPrefix)
    ensures FirstAnnex(entries).Some? ==>
              exists k :: 0 <= k < |entries| && StartsWith(entries[k], AnnexPrefix)
                          && (forall j :: 0 <= j < k ==> !StartsWith(entries[j], AnnexPrefix))
                          && FirstAnnex(entries) == Some(TextStrip(Replace(entries[k], AnnexPrefix, "")))
  {
    if entries != [] && !StartsWith(entries[0], AnnexPrefix) {
      FirstAnnexSpec(entries[1..]);
      assert forall k :: 0 < k < |entries| ==> entries[k] == entries[1..][k - 1];
      if FirstAnnex(entries).Some? {
        var k :| 0 <= k < |entries[1..]| && StartsWith(entries[1..][k], AnnexPrefix)
                 && (forall j :: 0 <= j < k ==> !StartsWith(entries[1..][j], AnnexPrefix))
                 && FirstAnnex(entries[1..]) == Some(TextStrip(Replace(entries[1..][k], AnnexPrefix, "")));
        assert forall j :: 0 < j < k + 1 ==> entries[j] == entries[1..][j - 1];
      }
    }
  }

  /** An entry "Annex: <number>" gives the stripped number when the number holds no further "Annex:". */
  lemma AnnexNumber(number: string)
    requires !Contains(number, AnnexPrefix)
    ensures TextStrip(Replace(AnnexPrefix + number, AnnexPrefix, "")) == TextStrip(number)
  {
    ReplaceAtStart(AnnexPrefix, number, "");
    ReplaceAbsent(number, AnnexPrefix, "");
    assert "" + number == number;
  }

  // ---------------------------------------------------------------- the legislator

  datatype Role = Role(name: string, term: string, chamber: string)

  /** A `Legislator` as saved. The default membership role billy adds is not modelled. */
  datatype Legislator = Legislator(
    term: string,
    chamber: string,
    district: string,
    fullName: string,
    party: string,
    photoUrl: Option<string>,
    url: string,
    officeAddress: string,
    officePhone: string,
    sources: seq<string>,
    roles: seq<Role>)

  datatype MemberTable = MemberTable(strong: string, bolds: seq<Option<string>>)

  datatype MemberPage = MemberPage(tables: seq<MemberTable>, images: seq<Option<string>>, contactRows: seq<seq<Node>>)

  /** One role per additional role, in order, for the scraped term and chamber. */
  function RolesOf(names: seq<string>, year: string, chamber: string): (r: seq<Role>)
    ensures |r| == |names|
    ensures forall k :: 0 <= k < |names| ==> r[k] == Role(names[k], year, chamber)
  {
    if names == [] then [] else RolesOf(names[..|names| - 1], year, chamber) + [Role(names[|names| - 1], year, chamber)]
  }

  /** The member dict once the table and the contact rows are read. */
  function MemberRecord(t: MemberTable, photo: Option<string>, rows: seq<seq<Node>>): Member {
    var m := Member(photo, FullName(t.strong), PartyOf(t.strong), None, [], None, None);
    Rows(Bolds(m, t.bolds), rows)
  }

  /** The legislator of a member dict: district, office address and office phone must have been found. */
  function Assemble(m: Member, chamber: string, year: string, url: string): Result<Legislator> {
    if m.district.None? then Err(KeyError("district"))
    else if m.officeAddress.None? then Err(KeyError("office_address"))
    else if m.officePhone.None? then Err(KeyError("office_phone"))
    else Ok(Legislator(year, chamber, m.district.value, m.fullName, m.party, m.photoUrl, url,
                       m.officeAddress.value, m.officePhone.value, [url], RolesOf(m.roles, year, chamber)))
  }

  /** What `scrape_member` saves for a member page. */
  function MemberOf(chamber: string, year: string, url: string, page: MemberPage): Result<Legislator> {
    if page.tables == [] then Err(IndexError("//body/div[2]/table"))
    else if page.images == [] then Err(IndexError("//body/div[2]/table//img"))
    else Assemble(MemberRecord(page.tables[0], page.images[0], page.contactRows), chamber, year, url)
  }

  /**
   * A saved legislator has the member URL as its only source, the district of the last
   * district item, the name and party of the heading, and one role per role item in order;
   * a page without a district item, an address row or an Annex phone fails.
   */
  lemma MemberOfSpec(chamber: string, year: string, url: string, page: MemberPage)
    requires page.tables != [] && page.images != []
    ensures var t := page.tables[0];
      var r := MemberOf(chamber, year, url, page);
      && (Latest(DistrictItems(t.bolds), None).None? ==> r == Err(KeyError("district")))
      && (Latest(DistrictItems(t.bolds), None).Some? && Latest(Addresses(page.contactRows), None).None? ==>
            r == Err(KeyError("office_address")))
      && (r.Ok? ==>
            && r.value.sources == [url] && r.value.url == url
            && Some(r.value.district) == Latest(DistrictItems(t.bolds), None)
            && Some(r.value.officeAddress) == Latest(Addresses(page.contactRows), None)
            && Some(r.value.officePhone) == Latest(Phones(page.contactRows), None)
            && r.value.fullName == FullName(t.strong) && r.value.party == PartyOf(t.strong)
            && r.value.roles == RolesOf(RoleItems(t.bolds), year, chamber))
  {
    var t := page.tables[0];
    var m := Member(page.images[0], FullName(t.strong), PartyOf(t.strong), None, [], None, None);
    BoldsSpec(m, t.bolds);
    RowsSpec(Bolds(m, t.bolds), page.contactRows);
    assert [] + RoleItems(t.bolds) == RoleItems(t.bolds);
  }

  /** `scrape_member`, once the page is fetched. */
  method ScrapeMember(chamber: string, year: string, url: string, page: MemberPage) returns (r: Result<Legislator>)
    ensures r == MemberOf(chamber, year, url, page)
  {
    if page.tables == [] {
      return Err(IndexError("//body/div[2]/table"));
    }
    var table := page.tables[0];
    if page.images == [] {
      return Err(IndexError("//body/div[2]/table//img"));
    }
    var member := Member(page.images[0], FullName(table.strong), PartyOf(table.strong), None, [], None, None);
    member := ScrapeBolds(member, table.bolds);
    member := ScrapeContactRows(member, page.contactRows);
    assert member == MemberRecord(table, page.images[0], page.contactRows);
    if member.district.None? {
      return Err(KeyError("district"));
    }
    if member.officeAddress.None? {
      return Err(KeyError("office_address"));
    }
    if member.officePhone.None? {
      return Err(KeyError("office_phone"));
    }
    var roles := AddRoles(member.roles, year, chamber);
    r := Ok(Legislator(year, chamber, member.district.value, member.fullName, member.party, member.photoUrl, url,
                       member.officeAddress.value, member.officePhone.value, [url], roles));
  }

  /** The loop of `scrape_member` over the bold items. */
  method ScrapeBolds(m: Member, boldList: seq<Option<string>>) returns (member: Member)
    ensures member == Bolds(m, boldList)
  {
    member := m;
    var i := 0;
    while i < |boldList|
      invariant 0 <= i <= |boldList|
      invariant member == Bolds(m, boldList[..i])
    {
      assert boldList[..i + 1][..i] == boldList[..i];
      var item := boldList[i];
      if item.None? {
      } else if Contains(item.value, DistrictWord) {
        var words := Split(item.value, ' ');
        member := member.(district := Some(StripOf(words[|words| - 1], !IsAscii(item.value))));
      } else {
        member := member.(roles := member.roles + [item.value]);
      }
      i := i + 1;
    }
    assert boldList[..i] == boldList;
  }

  /** The loop adding each additional role to the legislator. */
  method AddRoles(names: seq<string>, year: string, chamber: string) returns (roles: seq<Role>)
    ensures roles == RolesOf(names, year, chamber)
  {
    roles := [];
    var k := 0;
    while k < |names|
      invariant 0 <= k <= |names|
      invariant roles == RolesOf(names[..k], year, chamber)
    {
      assert names[..k + 1][..k] == names[..k];
      roles := roles + [Role(names[k], year, chamber)];
      k := k + 1;
    }
    assert names[..k] == names;
  }

  /** The loop of `scrape_member` over the contact rows. */
  method ScrapeContactRows(m: Member, rows: seq<seq<Node>>) returns (member: Member)
    ensures member == Rows(m, rows)
  {
    member := m;
    var i := 0;
    while i < |rows|
      invariant 0 <= i <= |rows|
      invariant member == Rows(m, rows[..i])
    {
      assert rows[..i + 1][..i] == rows[..i];
      member := ScrapeContactRow(member, rows[i]);
      i := i + 1;
    }
    assert rows[..i] == rows;
  }

  /** One contact row: its text is read, then the address and the phone labels are checked. */
  method ScrapeContactRow(m: Member, row: seq<Node>) returns (member: Member)
    ensures member == RowStep(m, row)
  {
    member := m;
    var rowText := GetChildText(row);
    if |rowText| > 0 {
      if rowText[0] == FrankfortLabel {
        member := member.(officeAddress := Some(Join(rowText[1..], "\n")));
      }
      if rowText[0] == PhoneLabel {
        var phone := AnnexPhone(rowText);
        if phone.Some? {
          member := member.(officePhone := phone);
        }
      }
    }
  }

  /** The inner loop over a phone row's entries, stopping at the first Annex entry. */
  method AnnexPhone(rowText: seq<string>) returns (phone: Option<string>)
    ensures phone == FirstAnnex(rowText)
  {
    var j := 0;
    while j < |rowText|
      invariant 0 <= j <= |rowText|
      invariant FirstAnnex(rowText) == FirstAnnex(rowText[j..])
    {
      if StartsWith(rowText[j], AnnexPrefix) {
        return Some(TextStrip(Replace(rowText[j], AnnexPrefix, "")));
      }
      assert rowText[j..][1..] == rowText[j + 1..];
      j := j + 1;
    }
    phone := None;
  }

  // ---------------------------------------------------------------- the chamber

  /** How a member page is read. */
  type MemberReader = string -> Result<Legislator>

  function MemberReaderFor(chamber: string, year: string, pages: string -> MemberPage): MemberReader {
    url => MemberOf(chamber, year, url, pages(url))
  }

  /** The legislators saved for the member links in order, and the failure that stopped the scrape, if any. */
  function ScrapeRun(urls: seq<string>, read: MemberReader): (seq<Legislator>, Option<Error>) {
    if urls == [] then ([], None)
    else
      var prev := ScrapeRun(urls[..|urls| - 1], read);
      if prev.1.Some? then prev
      else
        match read(urls[|urls| - 1])
        case Err(e) => (prev.0, Some(e))
        case Ok(leg) => (prev.0 + [leg], None)
  }

  /** A scrape read through saves one legislator per member link, in order; one that fails keeps those saved before the failing page. */
  lemma {:induction false} ScrapeRunSpec(urls: seq<string>, read: MemberReader)
    ensures var r := ScrapeRun(urls, read);
      && (r.1.None? <==> forall k :: 0 <= k < |urls| ==> read(urls[k]).Ok?)
      && (r.1.None? ==> |r.0| == |urls| && forall k :: 0 <= k < |urls| ==> r.0[k] == read(urls[k]).value)
      && |r.0| <= |urls|
  {
    if urls != [] {
      var init := urls[..|urls| - 1];
      ScrapeRunSpec(init, read);
      assert forall k :: 0 <= k < |init| ==> init[k] == urls[k];
    }
  }

  lemma {:induction false} ScrapeRunPrefix(urls: seq<string>, read: MemberReader, i: nat)
    requires i <= |urls| && ScrapeRun(urls[..i], read).1.Some?
    ensures ScrapeRun(urls, read) == ScrapeRun(urls[..i], read)
    decreases |urls| - i
  {
    if i < |urls| {
      assert urls[..i + 1][..i] == urls[..i];
      ScrapeRunPrefix(urls, read, i + 1);
    } else {
      assert urls[..i] == urls;
    }
  }

  lemma ScrapeRunStep(urls: seq<string>, read: MemberReader, i: nat)
    requires i < |urls| && ScrapeRun(urls[..i], read).1.None?
    ensures var r := read(urls[i]);
      ScrapeRun(urls[..i + 1], read) ==
        if r.Err? then (ScrapeRun(urls[..i], read).0, Some(r.error)) else (ScrapeRun(urls[..i], read).0 + [r.value], None)
  {
    assert urls[..i + 1][..i] == urls[..i];
  }

  /** `scrape`: every member linked from the chamber's list, in list order. */
  method Scrape(chamber: string, year: string, listing: string -> seq<string>, pages: string -> MemberPage)
    returns (saved: seq<Legislator>, failure: Option<Error>)
    ensures (saved, failure) == ScrapeRun(listing(ListUrl(chamber)), MemberReaderFor(chamber, year, pages))
  {
    var urls := listing(ListUrl(chamber));
    ghost var read := MemberReaderFor(chamber, year, pages);
    saved := [];
    var i := 0;
    while i < |urls|
      invariant 0 <= i <= |urls|
      invariant ScrapeRun(urls[..i], read) == (saved, None)
    {
      var url := urls[i];
      var leg := ScrapeMember(chamber, year, url, pages(url));
      assert leg == read(url);
      ScrapeRunStep(urls, read, i);
      if leg.Err? {
        ScrapeRunPrefix(urls, read, i + 1);
        return saved, Some(leg.error);
      }
      saved := saved + [leg.value];
      i := i + 1;
    }
    assert urls[..i] == urls;
    failure := None;
  }
}
