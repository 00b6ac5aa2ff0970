/**
 * The Oregon legislator scraper (scrapers_next/or/people.py): the legislators feed read
 * into people (`LegList.process_page`), and the detail page that completes each of them
 * with an image and a district office (`LegDetail.process_page`).
 *
 * The feed entry of a legislator is given as the texts of its property elements
 * (`content[0][k].text`); a detail page as the `src` attributes of its `h1 img` elements
 * and the `strong` tags under `p` that mention "District", each with its tail and
 * neighbours.
 */
module OrPeople {
  import opened Wrappers
  import opened Text

  const FeedUrl := "https://api.oregonlegislature.gov/odata/odataservice.svc/LegislativeSessions('2021R1')/Legislators"
  const WagnerImage := "https://www.oregonlegislature.gov/wagner/PublishingImages/member_photo.jpg"
  const BonhamImage := "https://www.oregonlegislature.gov/bonham/PublishingImages/member_photo.jpg"
  const Wagner := "Rob Wagner"
  const Bonham := "Daniel Bonham"
  const Wright := "Boomer Wright"
  /** The error of an entry with fewer than twelve properties. */
  const PropertyIndex := "content[0]"
  /** The selector of the portrait on a detail page. */
  const PortraitSelector := "h1 img"

  // ---------------------------------------------------------------- codes

  /** `"H"` is the lower chamber and `"S"` the upper one (after stripping); any other value is kept as it came. */
  function ChamberOf(code: string): string {
    if UStrip(code, IsWhite) == "H" then "lower"
    else if UStrip(code, IsWhite) == "S" then "upper"
    else code
  }

  /** `"Democrat"` (after stripping) is the Democratic party; any other value is kept as it came. */
  function PartyOf(party: string): string {
    if UStrip(party, IsWhite) == "Democrat" then "Democratic" else party
  }

  /** The chamber codes of the feed, padded with any whitespace, name the two chambers. */
  lemma ChamberOfPadded(pre: string, post: string)
    requires WhiteOnly(pre, IsWhite) && WhiteOnly(post, IsWhite)
    ensures ChamberOf(pre + "H" + post) == "lower"
    ensures ChamberOf(pre + "S" + post) == "upper"
  {
    UStripPadded(pre, "H", post, IsWhite);
    UStripPadded(pre, "S", post, IsWhite);
  }

  /** A value that is no code, stripped, passes through unchanged, padding included. */
  lemma ChamberOfOther(code: string)
    requires UStrip(code, IsWhite) != "H" && UStrip(code, IsWhite) != "S"
    ensures ChamberOf(code) == code
  {
  }

  lemma PartyOfPadded(pre: string, post: string)
    requires WhiteOnly(pre, IsWhite) && WhiteOnly(post, IsWhite)
    ensures PartyOf(pre + "Democrat" + post) == "Democratic"
  {
    UStripPadded(pre, "Democrat", post, IsWhite);
  }

  /** Any other party is passed through unchanged, padding included. */
  lemma PartyOfOther(party: string)
    requires UStrip(party, IsWhite) != "Democrat"
    ensures PartyOf(party) == party
  {
  }

  // ---------------------------------------------------------------- people

  datatype Office = Office(address: Option<string>, voice: Option<string>)

  datatype Link = Link(url: string, note: string)

  /** A `ScrapePerson` as built here. An image not yet set is `None`. */
  datatype Person = Person(
    name: string,
    state: string,
    chamber: string,
    district: string,
    party: string,
    sources: seq<string>,
    links: seq<Link>,
    givenName: string,
    familyName: string,
    capitolOffice: Office,
    districtOffice: Office,
    extras: map<string, string>,
    email: string,
    image: Option<string>)

  /** A new `ScrapePerson(name=..., state="or", chamber=..., district=..., party=...)`. */
  function NewPerson(name: string, chamber: string, district: string, party: string): Person {
    Person(name, "or", chamber, district, party, [], [], "", "", Office(None, None), Office(None, None), map[], "", None)
  }

  /** A feed entry: the texts of the properties of its content. */
  datatype Entry = Entry(props: seq<string>)

  /** What the feed yields for one legislator: the person, or the detail page still to visit for it. */
  datatype Yield = Emit(person: Person) | Visit(person: Person, url: string)

  /** The title a person gets as an extra, if any: every stripped title but the two plain ones. */
  function TitleExtras(title: string): map<string, string> {
    if UStrip(title, IsWhite) != "Senator" && UStrip(title, IsWhite) != "Representative" then map["title" := UStrip(title, IsWhite)] else map[]
  }

  /** The person the properties of a feed entry describe, before any image is set. */
  function PersonOf(c: seq<string>): Person
    requires |c| >= 12
  {
    Person(name := UStrip(c[2], IsWhite) + " " + UStrip(c[3], IsWhite), state := "or", chamber := ChamberOf(c[7]), district := c[9],
           party := PartyOf(c[8]), sources := [FeedUrl, c[11]], links := [Link(c[11], "homepage")],
           givenName := UStrip(c[2], IsWhite), familyName := UStrip(c[3], IsWhite),
           capitolOffice := Office(Some(UStrip(c[4], IsWhite)), if c[5] != "" then Some(UStrip(c[5], IsWhite)) else None),
           districtOffice := Office(None, None), extras := TitleExtras(c[6]), email := UStrip(c[10], IsWhite), image := None)
  }

  /** What is yielded for a feed entry. */
  function EntryStep(e: Entry): Result<Yield>
  {
    if |e.props| < 12 then Err(IndexError(PropertyIndex))
    else
      var p := PersonOf(e.props);
      if p.name == Bonham then Ok(Emit(p.(image := Some(BonhamImage))))
      else Ok(Visit(p, e.props[11]))
  }

  /**
   * What the feed says about one legislator: the name is the stripped first and last
   * names joined by one space, the codes are mapped, the capitol phone is set exactly
   * when the feed gives one, the title is an extra exactly when it is not a plain one,
   * the feed and the homepage are the sources, and only Daniel Bonham is emitted at once.
   */
  lemma EntryStepSpec(e: Entry)
    ensures EntryStep(e).Ok? <==> |e.props| >= 12
    ensures EntryStep(e).Ok? ==>
      var y := EntryStep(e).value;
      var p := y.person;
      var c := e.props;
      && p.name == p.givenName + " " + p.familyName
      && p.givenName == UStrip(c[2], IsWhite) && p.familyName == UStrip(c[3], IsWhite)
      && Trimmed(p.givenName, IsWhite) && Trimmed(p.familyName, IsWhite)
      && p.chamber == ChamberOf(c[7]) && p.party == PartyOf(c[8]) && p.district == c[9]
      && (p.capitolOffice.voice.Some? <==> c[5] != "")
      && ("title" in p.extras <==> UStrip(c[6], IsWhite) != "Senator" && UStrip(c[6], IsWhite) != "Representative")
      && p.extras.Keys <= {"title"}
      && p.sources == [FeedUrl, c[11]]
      && (y.Emit? <==> p.name == Bonham)
      && (y.Emit? ==> p.image == Some(BonhamImage))
      && (y.Visit? ==> y.url == c[11] && p.image == None)
  {
    if |e.props| >= 12 {
      UStripSpec(e.props[2], IsWhite);
      UStripSpec(e.props[3], IsWhite);
    }
  }

  /** How one entry of the feed is read. */
  type EntryReader = Entry -> Result<Yield>

  /** The entries of the feed in order, up to the first that fails. */
  function ListRun(entries: seq<Entry>, step: EntryReader): (seq<Yield>, Option<Error>)
  {
    if entries == [] then ([], None)
    else
      var prev := ListRun(entries[..|entries| - 1], step);
      if prev.1.Some? then prev
      else
        match step(entries[|entries| - 1])
        case Err(e) => (prev.0, Some(e))
        case Ok(y) => (prev.0 + [y], None)
  }

  /** The feed's legislators are the children of its root after the first four. */
  function Legislators(root: seq<Entry>): seq<Entry> {
    if |root| <= 4 then [] else root[4..]
  }

  /** What `LegList.process_page` yields for a feed, and the failure that ends it, if any. */
  function LegList(root: seq<Entry>): (seq<Yield>, Option<Error>) {
    ListRun(Legislators(root), EntryStep)
  }

  /** A feed read through yields exactly one item per legislator, in feed order, and it is read through exactly when every entry reads. */
  lemma {:induction false} ListRunOk(entries: seq<Entry>, step: EntryReader)
    ensures var r := ListRun(entries, step);
      && (r.1.None? <==> forall k :: 0 <= k < |entries| ==> step(entries[k]).Ok?)
      && (r.1.None? ==> |r.0| == |entries| && forall k :: 0 <= k < |entries| ==> r.0[k] == step(entries[k]).value)
  {
    if entries != [] {
      var init := entries[..|entries| - 1];
      ListRunOk(init, step);
      assert forall k :: 0 <= k < |init| ==> init[k] == entries[k];
    }
  }

  /** One more entry read after the first `i`, when none of those failed. */
  lemma ListRunStep(entries: seq<Entry>, step: EntryReader, i: nat, out: seq<Yield>)
    requires i < |entries| && ListRun(entries[..i], step) == (out, None)
    ensures ListRun(entries[..i + 1], step) ==
              match step(entries[i])
              case Err(e) => (out, Some(e))
              case Ok(y) => (out + [y], None)
  {
    assert entries[..i + 1][..i] == entries[..i];
  }

  /** A feed that fails stops at an entry that fails, after yielding what the entries before it yield. */
  lemma {:induction false} ListRunFail(entries: seq<Entry>, step: EntryReader)
    requires ListRun(entries, step).1.Some?
    ensures exists n :: 0 <= n < |entries| && step(entries[n]) == Err(ListRun(entries, step).1.value)
                        && ListRun(entries[..n], step) == (ListRun(entries, step).0, None)
  {
    var init := entries[..|entries| - 1];
    var prev := ListRun(init, step);
    if prev.1.Some? {
      ListRunFail(init, step);
      var n :| 0 <= n < |init| && step(init[n]) == Err(prev.1.value) && ListRun(init[..n], step) == (prev.0, None);
      assert init[..n] == entries[..n];
      assert init[n] == entries[n];
    } else {
      assert entries[..|entries| - 1] == init;
    }
  }

  /** The first four children of the root are never read. */
  lemma LegListSkipsHeader(header: seq<Entry>, entries: seq<Entry>)
    requires |header| == 4
    ensures LegList(header + entries) == ListRun(entries, EntryStep)
  {
    if entries == [] {
      assert Legislators(header + entries) == [];
    } else {
      assert (header + entries)[4..] == entries;
    }
  }

  /** `LegList.process_page`. */
  method ProcessList(root: seq<Entry>) returns (out: seq<Yield>, failure: Option<Error>)
    ensures (out, failure) == LegList(root)
  {
    var legislators := if |root| <= 4 then [] else root[4..];
    out := [];
    var i := 0;
    while i < |legislators|
      invariant 0 <= i <= |legislators|
      invariant ListRun(legislators[..i], EntryStep) == (out, None)
    {
      var r := ScrapeEntry(legislators[i]);
      ListRunStep(legislators, EntryStep, i, out);
      if r.Err? {
        ListRunPrefix(legislators, EntryStep, i + 1);
        return out, Some(r.error);
      }
      out := out + [r.value];
      i := i + 1;
    }
    assert legislators[..i] == legislators;
    failure := None;
  }

  /** The body of the loop of `LegList.process_page`: an entry without twelve properties fails. */
  method ScrapeEntry(e: Entry) returns (r: Result<Yield>)
    ensures r == EntryStep(e)
  {
    var content := e.props;
    if |content| < 12 {
      return Err(IndexError(PropertyIndex));
    }
    var p := ReadPerson(content);
    if p.name == Bonham {
      p := p.(image := Some(BonhamImage));
      r := Ok(Emit(p));
    } else {
      r := Ok(Visit(p, content[11]));
    }
  }

  /** The person of a feed entry, field by field as `LegList.process_page` sets them. */
  method ReadPerson(content: seq<string>) returns (p: Person)
    requires |content| >= 12
    ensures p == PersonOf(content)
  {
    p := ReadNameAndCapitol(content);
    p := ReadTitleAndLinks(p, content);
  }

  /** The name, codes and capitol office of a feed entry, with the feed as the first source. */
  method ReadNameAndCapitol(content: seq<string>) returns (p: Person)
    requires |content| >= 12
    ensures p == PersonOf(content).(sources := [FeedUrl], links := [], extras := map[], email := "")
  {
    var firstName := content[2];
    var lastName := content[3];
    var name := UStrip(firstName, IsWhite) + " " + UStrip(lastName, IsWhite);
    var chamber := ChamberOf(content[7]);
    var party := PartyOf(content[8]);
    p := NewPerson(name, chamber, content[9], party);
    p := p.(sources := p.sources + [FeedUrl]);
    p := p.(familyName := UStrip(lastName, IsWhite));
    p := p.(givenName := UStrip(firstName, IsWhite));
    p := p.(capitolOffice := p.capitolOffice.(address := Some(UStrip(content[4], IsWhite))));
    var capPhone := content[5];
    if capPhone != "" {
      p := p.(capitolOffice := p.capitolOffice.(voice := Some(UStrip(capPhone, IsWhite))));
    }
  }

  /** The title, email, homepage and second source of a feed entry. */
  method ReadTitleAndLinks(q: Person, content: seq<string>) returns (p: Person)
    requires |content| >= 12
    ensures p == q.(extras := q.extras + TitleExtras(content[6]), email := UStrip(content[10], IsWhite),
                    links := q.links + [Link(content[11], "homepage")], sources := q.sources + [content[11]])
  {
    p := q;
    var title := content[6];
    if UStrip(title, IsWhite) != "Senator" && UStrip(title, IsWhite) != "Representative" {
      p := p.(extras := p.extras["title" := UStrip(title, IsWhite)]);
    }
    assert p.extras == q.extras + TitleExtras(title);
    p := p.(email := UStrip(content[10], IsWhite));
    var website := content[11];
    p := p.(links := p.links + [Link(website, "homepage")]);
    p := p.(sources := p.sources + [website]);
  }

  lemma {:induction false} ListRunPrefix(entries: seq<Entry>, step: EntryReader, i: nat)
    requires i <= |entries| && ListRun(entries[..i], step).1.Some?
    ensures ListRun(entries, step) == ListRun(entries[..i], step)
    decreases |entries| - i
  {
    if i < |entries| {
      assert entries[..i + 1][..i] == entries[..i];
      ListRunPrefix(entries, step, i + 1);
    } else {
      assert entries[..i] == entries;
    }
  }

  // ---------------------------------------------------------------- detail page

  /** The element after a `strong` tag: its text content, its tail, and the text content of the element after it. */
  datatype Sibling = Sibling(text: string, tail: Option<string>, nextText: Option<string>)

  /** A `strong` tag mentioning "District": its text content, its tail, the element after it, and its parent's tail. */
  datatype Tag = Tag(text: string, tail: Option<string>, next: Option<Sibling>, parentTail: Option<string>)

  /** A detail page: the `src` of each `h1 img`, and the district tags. */
  datatype DetailPage = DetailPage(portraits: seq<Option<string>>, tags: seq<Tag>)

  /** `re.search(r"District\sPhone:", s)`. */
  predicate PhoneLabel(s: string) {
    exists i | 0 <= i < |s| :: OccursAt(s, "District", i) && i + 8 < |s| && IsWhite(s[i + 8]) && OccursAt(s, "Phone:", i + 9)
  }

  /** `(Mailing)?\s?Address:` at `j`, each optional part tried present first. */
  predicate AddressTail(s: string, j: nat) {
    || OccursAt(s, "Address:", j)
    || (j < |s| && IsWhite(s[j]) && OccursAt(s, "Address:", j + 1))
    || (OccursAt(s, "Mailing", j) &&
          (OccursAt(s, "Address:", j + 7) || (j + 7 < |s| && IsWhite(s[j + 7]) && OccursAt(s, "Address:", j + 8))))
  }

  /** `re.search(r"District(\s|\xa0)(Mailing)?\s?Address:", s)`. */
  predicate AddressLabel(s: string) {
    exists i | 0 <= i < |s| :: OccursAt(s, "District", i) && i + 8 < |s| && (IsWhite(s[i + 8]) || s[i + 8] == '\U{00A0}')
                                 && AddressTail(s, i + 9)
  }

  /** Any label "District<space>Phone:" is found, whatever surrounds it. */
  lemma PhoneLabelFound(pre: string, c: char, post: string)
    requires IsWhite(c)
    ensures PhoneLabel(pre + "District" + [c] + "Phone:" + post)
  {
    var s := pre + "District" + [c] + "Phone:" + post;
    var i := |pre|;
    assert s[i..i + 8] == "District";
    assert s[i + 8] == c;
    assert s[i + 9..i + 15] == "Phone:";
    assert OccursAt(s, "District", i) && OccursAt(s, "Phone:", i + 9);
  }

  /** The address label is found with or without "Mailing", and with or without one space before "Address:". */
  lemma AddressLabelFound(pre: string, c: char, mailing: bool, gap: string, post: string)
    requires IsWhite(c)
    requires gap == [] || (|gap| == 1 && IsWhite(gap[0]))
    ensures AddressLabel(pre + "District" + [c] + (if mailing then "Mailing" else "") + gap + "Address:" + post)
  {
    var m := if mailing then "Mailing" else "";
    var t := m + gap + "Address:";
    var s := pre + "District" + [c] + m + gap + "Address:" + post;
    assert s == pre + "District" + [c] + t + post;
    var i := |pre|;
    var j := i + 9;
    assert s[i..i + 8] == "District";
    assert s[i + 8] == c;
    assert s[j..j + |t|] == t;
    AddressTailFound(s, j, mailing, gap);
    assert OccursAt(s, "District", i) && IsWhite(s[i + 8]) && AddressTail(s, i + 9);
  }

  /** `(Mailing)?\s?Address:` written out at `j` is found there. */
  lemma AddressTailFound(s: string, j: nat, mailing: bool, gap: string)
    requires gap == [] || (|gap| == 1 && IsWhite(gap[0]))
    requires OccursAt(s, (if mailing then "Mailing" else "") + gap + "Address:", j)
    ensures AddressTail(s, j)
  {
    var m := if mailing then "Mailing" else "";
    OccursAtSplit(s, m + gap, "Address:", j);
    OccursAtSplit(s, m, gap, j);
    if gap != [] {
      assert s[j + |m|] == s[j + |m|..j + |m| + 1][0] == gap[0];
    }
  }

  function WithVoice(p: Person, v: string): Person {
    p.(districtOffice := p.districtOffice.(voice := Some(v)))
  }

  function WithAddress(p: Person, a: string): Person {
    p.(districtOffice := p.districtOffice.(address := Some(a)))
  }

  /** One district tag: a phone label, an address label, or a "Phone:"/"Address:" neighbour; a missing neighbour fails. */
  function TagStep(p: Person, t: Tag): Result<Person>
  {
    if PhoneLabel(t.text) then
      if t.tail.None? && p.name == Wright then
        if t.next.None? || t.next.value.nextText.None? then Err(AttributeError("getnext"))
        else Ok(WithVoice(p, UStrip(t.next.value.nextText.value, IsWhite)))
      else if t.tail.None? then
        if t.next.None? then Err(AttributeError("getnext")) else Ok(WithVoice(p, UStrip(t.next.value.text, IsWhite)))
      else Ok(WithVoice(p, UStrip(t.tail.value, IsWhite)))
    else if AddressLabel(t.text) then
      if t.tail.None? || UStrip(t.tail.value, IsWhite) == "" then
        if t.next.None? then Err(AttributeError("getnext")) else Ok(WithAddress(p, UStrip(t.next.value.text, IsWhite)))
      else Ok(WithAddress(p, UStrip(t.tail.value, IsWhite)))
    else if t.next.Some? && UStrip(t.next.value.text, IsWhite) == "Phone:" then
      if t.next.value.tail.None? then Err(AttributeError("tail")) else Ok(WithVoice(p, UStrip(t.next.value.tail.value, IsWhite)))
    else if t.tail.Some? && UStrip(t.tail.value, IsWhite) == "Address:" then
      if t.parentTail.None? then Err(AttributeError("tail")) else Ok(WithAddress(p, UStrip(t.parentTail.value, IsWhite)))
    else Ok(p)
  }

  /** The district tags in order, up to the first failure. */
  function TagsRun(p: Person, tags: seq<Tag>): Result<Person>
  {
    if tags == [] then Ok(p)
    else
      var q :- TagsRun(p, tags[..|tags| - 1]);
      TagStep(q, tags[|tags| - 1])
  }

  /** `match_one`: exactly one element, or a selector error. */
  function MatchOne(portraits: seq<Option<string>>): Result<Option<string>> {
    if |portraits| == 1 then Ok(portraits[0]) else Err(SelectorError(PortraitSelector))
  }

  /** What `LegDetail.process_page` makes of a person. A page without district tags leaves the office alone. */
  function DetailOf(p: Person, page: DetailPage): Result<Person>
  {
    var img :- if p.name == Wagner then Ok(Some(WagnerImage)) else MatchOne(page.portraits);
    TagsRun(p.(image := img), page.tags)
  }

  /** A district tag changes the district office only. */
  lemma TagStepKeeps(p: Person, t: Tag)
    requires TagStep(p, t).Ok?
    ensures TagStep(p, t).value.(districtOffice := p.districtOffice) == p
  {
    var q := TagStep(p, t).value;
    assert q == p || (exists v :: q == WithVoice(p, v)) || (exists a :: q == WithAddress(p, a));
  }

  /** The district tags change the district office only. */
  lemma {:induction false} TagsRunKeeps(p: Person, tags: seq<Tag>)
    requires TagsRun(p, tags).Ok?
    ensures TagsRun(p, tags).value.(districtOffice := p.districtOffice) == p
  {
    if tags != [] {
      TagsRunKeeps(p, tags[..|tags| - 1]);
      var q := TagsRun(p, tags[..|tags| - 1]).value;
      TagStepKeeps(q, tags[|tags| - 1]);
    }
  }

  /**
   * The detail page sets the image (the fixed one for Rob Wagner, otherwise the only
   * portrait's source, and a page without exactly one portrait fails) and changes
   * nothing else but the district office, which it leaves alone when it has no district tags.
   */
  lemma DetailOfSpec(p: Person, page: DetailPage)
    ensures p.name != Wagner && |page.portraits| != 1 ==> DetailOf(p, page) == Err(SelectorError(PortraitSelector))
    ensures DetailOf(p, page).Ok? ==>
      var q := DetailOf(p, page).value;
      && q.(image := p.image, districtOffice := p.districtOffice) == p
      && q.image == (if p.name == Wagner then Some(WagnerImage) else page.portraits[0])
      && (page.tags == [] ==> q.districtOffice == p.districtOffice)
  {
    if DetailOf(p, page).Ok? {
      var img := if p.name == Wagner then Some(WagnerImage) else page.portraits[0];
      TagsRunKeeps(p.(image := img), page.tags);
    }
  }

  /** A phone label with a tail gives the stripped tail as the district phone; Boomer Wright's untailed label reads two elements on. */
  lemma PhoneLabelVoice(p: Person, t: Tag)
    requires PhoneLabel(t.text)
    ensures t.tail.Some? ==> TagStep(p, t) == Ok(WithVoice(p, UStrip(t.tail.value, IsWhite)))
    ensures t.tail.None? && p.name == Wright && t.next.Some? && t.next.value.nextText.Some? ==>
              TagStep(p, t) == Ok(WithVoice(p, UStrip(t.next.value.nextText.value, IsWhite)))
    ensures t.tail.None? && p.name != Wright && t.next.Some? ==> TagStep(p, t) == Ok(WithVoice(p, UStrip(t.next.value.text, IsWhite)))
  {
  }

  /** An address label with a blank or missing tail reads the next element instead. */
  lemma AddressLabelAddress(p: Person, t: Tag)
    requires !PhoneLabel(t.text) && AddressLabel(t.text)
    ensures t.tail.Some? && UStrip(t.tail.value, IsWhite) != "" ==> TagStep(p, t) == Ok(WithAddress(p, UStrip(t.tail.value, IsWhite)))
    ensures (t.tail.None? || UStrip(t.tail.value, IsWhite) == "") && t.next.Some? ==>
              TagStep(p, t) == Ok(WithAddress(p, UStrip(t.next.value.text, IsWhite)))
    ensures (t.tail.None? || UStrip(t.tail.value, IsWhite) == "") && t.next.None? ==> TagStep(p, t).Err?
  {
  }

  /** `LegDetail.process_page`. */
  method ProcessDetail(p: Person, page: DetailPage) returns (r: Result<Person>)
    ensures r == DetailOf(p, page)
  {
    var q := p;
    if q.name == Wagner {
      q := q.(image := Some(WagnerImage));
    } else {
      if |page.portraits| != 1 {
        return Err(SelectorError(PortraitSelector));
      }
      q := q.(image := page.portraits[0]);
    }
    r := ScrapeTags(q, page.tags);
  }

  /** The loop of `LegDetail.process_page` over the district tags: the first failing tag stops it. */
  method ScrapeTags(start: Person, tags: seq<Tag>) returns (r: Result<Person>)
    ensures r == TagsRun(start, tags)
  {
    var q := start;
    var i := 0;
    while i < |tags|
      invariant 0 <= i <= |tags|
      invariant TagsRun(start, tags[..i]) == Ok(q)
    {
      var next := ScrapeTag(q, tags[i]);
      TagsRunStep(start, tags, i, q);
      if next.Err? {
        TagsRunPrefix(start, tags, i + 1);
        return next;
      }
      q := next.value;
      i := i + 1;
    }
    assert tags[..i] == tags;
    r := Ok(q);
  }

  /** The body of the loop of `LegDetail.process_page` over the district tags. */
  method ScrapeTag(p: Person, tag: Tag) returns (r: Result<Person>)
    ensures r == TagStep(p, tag)
  {
    if PhoneLabel(tag.text) {
      if tag.tail.None? && p.name == Wright {
        if tag.next.None? || tag.next.value.nextText.None? {
          return Err(AttributeError("getnext"));
        }
        r := Ok(WithVoice(p, UStrip(tag.next.value.nextText.value, IsWhite)));
      } else if tag.tail.None? {
        if tag.next.None? {
          return Err(AttributeError("getnext"));
        }
        r := Ok(WithVoice(p, UStrip(tag.next.value.text, IsWhite)));
      } else {
        r := Ok(WithVoice(p, UStrip(tag.tail.value, IsWhite)));
      }
    } else if AddressLabel(tag.text) {
      if tag.tail.None? || UStrip(tag.tail.value, IsWhite) == "" {
        if tag.next.None? {
          return Err(AttributeError("getnext"));
        }
        r := Ok(WithAddress(p, UStrip(tag.next.value.text, IsWhite)));
      } else {
        r := Ok(WithAddress(p, UStrip(tag.tail.value, IsWhite)));
      }
    } else if tag.next.Some? && UStrip(tag.next.value.text, IsWhite) == "Phone:" {
      if tag.next.value.tail.None? {
        return Err(AttributeError("tail"));
      }
      r := Ok(WithVoice(p, UStrip(tag.next.value.tail.value, IsWhite)));
    } else if tag.tail.Some? && UStrip(tag.tail.value, IsWhite) == "Address:" {
      if tag.parentTail.None? {
        return Err(AttributeError("tail"));
      }
      r := Ok(WithAddress(p, UStrip(tag.parentTail.value, IsWhite)));
    } else {
      r := Ok(p);
    }
  }

  /** One more tag read after the first `i`. */
  lemma TagsRunStep(p: Person, tags: seq<Tag>, i: nat, q: Person)
    requires i < |tags| && TagsRun(p, tags[..i]) == Ok(q)
    ensures TagsRun(p, tags[..i + 1]) == TagStep(q, tags[i])
  {
    assert tags[..i + 1][..i] == tags[..i];
  }

  lemma {:induction false} TagsRunPrefix(p: Person, tags: seq<Tag>, i: nat)
    requires i <= |tags| && TagsRun(p, tags[..i]).Err?
    ensures TagsRun(p, tags) == TagsRun(p, tags[..i])
    decreases |tags| - i
  {
    if i < |tags| {
      assert tags[..i + 1][..i] == tags[..i];
      TagsRunPrefix(p, tags, i + 1);
    } else {
      assert tags[..i] == tags;
    }
  }
}
