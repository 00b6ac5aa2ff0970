/**
 * The New Jersey legislator scraper (openstates/nj/legislators.py): `scrape` picks the
 * roster year from the term, and `scrape_legislators` turns every record of the roster
 * database into a legislator.
 *
 * A roster record is a map from field name to text; the roster fetch is a parameter
 * giving the file URL and the records of a year.
 */
module NjLegislators {
  import opened Wrappers
  import opened Text

  type Record = map<string, string>

  /** A `Legislator` as saved, with the roster file as its only source. */
  datatype Legislator = Legislator(
    term: string,
    chamber: string,
    district: string,
    fullName: string,
    firstName: string,
    lastName: string,
    middleName: string,
    party: string,
    suffixes: string,
    title: string,
    legalPosition: string,
    legStatus: string,
    address: string,
    city: string,
    state: string,
    zipcode: string,
    phone: string,
    email: string,
    sources: seq<string>)

  /** `rec[key]`: a missing field raises `KeyError`. */
  function Field(rec: Record, key: string): Result<string> {
    if key in rec then Ok(rec[key]) else Err(KeyError(key))
  }

  // ---------------------------------------------------------------- full name

  /** Python `s[0:len(s) - 1]`: all but the last character. */
  function DropLast(s: string): string {
    if s == [] then [] else s[..|s| - 1]
  }

  /** The full name as the scraper writes it: joined by spaces, double spaces made single, the last character dropped. */
  function FullNameAsWritten(first: string, middle: string, last: string, suffix: string): string {
    DropLast(Replace(Spaced(first, middle, last, suffix), "  ", " "))
  }

  /** `first + " " + middle + " " + last + " " + suffix`. */
  function Spaced(first: string, middle: string, last: string, suffix: string): string {
    first + (" " + (middle + (" " + (last + (" " + suffix)))))
  }

  /** The parts that are not empty, in order. */
  function NonEmpty(xs: seq<string>): (r: seq<string>)
    ensures |r| <= |xs|
    ensures forall k :: 0 <= k < |r| ==> r[k] != [] && r[k] in xs
  {
    if xs == [] then [] else (if xs[0] == [] then [] else [xs[0]]) + NonEmpty(xs[1..])
  }

  /** The full name the scraper means: the non-empty name parts, separated by single spaces. */
  function FullName(first: string, middle: string, last: string, suffix: string): string {
    Join(NonEmpty([first, middle, last, suffix]), " ")
  }

  /** A name part as the roster holds it: no spaces. */
  predicate Word(s: string) {
    ' ' !in s
  }

  /** The given and family names, with the middle name when there is one. */
  function Core(first: string, middle: string, last: string): string {
    first + (if middle == [] then [] else " " + middle) + " " + last
  }

  /** A space followed by a word loses nothing to the replacement. */
  lemma SpaceWordKept(a: string, rest: string)
    requires a != [] && Word(a)
    ensures Replace(" " + (a + rest), "  ", " ") == " " + (a + Replace(rest, "  ", " "))
  {
    var s := " " + (a + rest);
    assert s[..2] == [' ', a[0]];
    assert s[1..] == a + rest;
    ReplaceAppendFree(a, rest, "  ", " ");
  }

  /** The suffix, with its separating space, is untouched by the replacement. */
  lemma SuffixKept(suffix: string)
    requires Word(suffix)
    ensures Replace(" " + suffix, "  ", " ") == " " + suffix
  {
    if suffix != [] {
      SpaceWordKept(suffix, []);
      assert suffix + [] == suffix;
    }
  }

  /** The last name, with the suffix after it, is untouched by the replacement. */
  lemma LastKept(last: string, suffix: string)
    requires last != [] && Word(last) && Word(suffix)
    ensures Replace(last + (" " + suffix), "  ", " ") == last + (" " + suffix)
  {
    SuffixKept(suffix);
    ReplaceAppendFree(last, " " + suffix, "  ", " ");
  }

  /** An empty middle name leaves a double space, which becomes one. */
  lemma MiddleEmptyReplaced(last: string, suffix: string)
    requires last != [] && Word(last) && Word(suffix)
    ensures Replace("  " + (last + (" " + suffix)), "  ", " ") == " " + (last + (" " + suffix))
  {
    ReplaceAtStart("  ", last + (" " + suffix), " ");
    LastKept(last, suffix);
  }

  /** A middle name is kept, with single spaces around it. */
  lemma MiddleWordReplaced(middle: string, last: string, suffix: string)
    requires middle != [] && last != [] && Word(middle) && Word(last) && Word(suffix)
    ensures Replace(" " + (middle + (" " + (last + (" " + suffix)))), "  ", " ") == " " + (middle + (" " + (last + (" " + suffix))))
  {
    SpaceWordKept(middle, " " + (last + (" " + suffix)));
    SpaceWordKept(last, " " + suffix);
    SuffixKept(suffix);
  }

  /** After the replacement of the grouped name, the parts are joined by single spaces, the suffix last. */
  lemma SpacedReplaced(first: string, middle: string, last: string, suffix: string)
    requires first != [] && last != [] && Word(first) && Word(middle) && Word(last) && Word(suffix)
    ensures Replace(Spaced(first, middle, last, suffix), "  ", " ") == Core(first, middle, last) + " " + suffix
  {
    var tail := last + (" " + suffix);
    var rest := " " + (middle + (" " + tail));
    if middle == [] {
      calc {
        Replace(Spaced(first, middle, last, suffix), "  ", " ");
        { assert Spaced(first, middle, last, suffix) == first + ("  " + tail); }
        Replace(first + ("  " + tail), "  ", " ");
        { ReplaceAppendFree(first, "  " + tail, "  ", " "); }
        first + Replace("  " + tail, "  ", " ");
        { MiddleEmptyReplaced(last, suffix); }
        first + (" " + tail);
        Core(first, middle, last) + " " + suffix;
      }
    } else {
      calc {
        Replace(Spaced(first, middle, last, suffix), "  ", " ");
        Replace(first + rest, "  ", " ");
        { ReplaceAppendFree(first, rest, "  ", " "); }
        first + Replace(rest, "  ", " ");
        { MiddleWordReplaced(middle, last, suffix); }
        first + rest;
        Core(first, middle, last) + " " + suffix;
      }
    }
  }

  lemma NonEmptyCons(x: string, xs: seq<string>)
    ensures NonEmpty([x] + xs) == (if x == [] then [] else [x]) + NonEmpty(xs)
  {
    assert ([x] + xs)[1..] == xs;
  }

  lemma JoinCons(x: string, xs: seq<string>, sep: string)
    requires xs != []
    ensures Join([x] + xs, sep) == x + sep + Join(xs, sep)
  {
    assert ([x] + xs)[1..] == xs;
  }

  function Optional(s: string): seq<string> {
    if s == [] then [] else [s]
  }

  /** The non-empty parts of a name whose first and last parts are present. */
  lemma NameParts(first: string, middle: string, last: string, suffix: string)
    requires first != [] && last != []
    ensures NonEmpty([first, middle, last, suffix]) == [first] + (Optional(middle) + ([last] + Optional(suffix)))
  {
    calc {
      NonEmpty([first, middle, last, suffix]);
      { assert [first, middle, last, suffix] == [first] + [middle, last, suffix];
        NonEmptyCons(first, [middle, last, suffix]); }
      [first] + NonEmpty([middle, last, suffix]);
      { assert [middle, last, suffix] == [middle] + [last, suffix];
        NonEmptyCons(middle, [last, suffix]); }
      [first] + (Optional(middle) + NonEmpty([last, suffix]));
      { assert [last, suffix] == [last] + [suffix];
        NonEmptyCons(last, [suffix]); }
      [first] + (Optional(middle) + ([last] + NonEmpty([suffix])));
      { assert [suffix] == [suffix] + [];
        NonEmptyCons(suffix, []); }
      [first] + (Optional(middle) + ([last] + Optional(suffix)));
    }
  }

  /** The family name, with the suffix when there is one. */
  function Tail(last: string, suffix: string): string {
    if suffix == [] then last else last + (" " + suffix)
  }

  lemma JoinTail(last: string, suffix: string)
    ensures Join([last] + Optional(suffix), " ") == Tail(last, suffix)
  {
    if suffix != [] {
      JoinCons(last, [suffix], " ");
    }
  }

  lemma JoinMiddle(middle: string, last: string, suffix: string)
    ensures Join(Optional(middle) + ([last] + Optional(suffix)), " ") ==
              if middle == [] then Tail(last, suffix) else middle + (" " + Tail(last, suffix))
  {
    JoinTail(last, suffix);
    if middle == [] {
      assert Optional(middle) + ([last] + Optional(suffix)) == [last] + Optional(suffix);
    } else {
      assert Optional(middle) + ([last] + Optional(suffix)) == [middle] + ([last] + Optional(suffix));
      JoinCons(middle, [last] + Optional(suffix), " ");
    }
  }

  /** The intended name is the core, followed by the suffix when there is one. */
  lemma FullNameShape(first: string, middle: string, last: string, suffix: string)
    requires first != [] && last != []
    ensures FullName(first, middle, last, suffix) == Core(first, middle, last) + (if suffix == [] then [] else " " + suffix)
  {
    var inner := Optional(middle) + ([last] + Optional(suffix));
    var joined := if middle == [] then Tail(last, suffix) else middle + (" " + Tail(last, suffix));
    calc {
      FullName(first, middle, last, suffix);
      { NameParts(first, middle, last, suffix); }
      Join([first] + inner, " ");
      { JoinCons(first, inner, " "); }
      first + " " + Join(inner, " ");
      { JoinMiddle(middle, last, suffix); }
      first + " " + joined;
    }
    CoreTail(first, middle, last, suffix);
  }

  /** The given name and the joined rest are the core followed by the suffix. */
  lemma CoreTail(first: string, middle: string, last: string, suffix: string)
    ensures first + " " + (if middle == [] then Tail(last, suffix) else middle + (" " + Tail(last, suffix))) ==
              Core(first, middle, last) + (if suffix == [] then [] else " " + suffix)
  {
    var sp: string := " ";
    if middle == [] && suffix == [] {
      assert Core(first, middle, last) == first + [] + sp + last;
      assert first + [] == first;
    } else if middle == [] {
      assert Core(first, middle, last) == first + [] + sp + last;
      assert first + [] == first;
      assert first + sp + (last + (sp + suffix)) == first + sp + last + (sp + suffix);
    } else if suffix == [] {
      assert Core(first, middle, last) == first + (sp + middle) + sp + last;
      assert first + sp + (middle + (sp + last)) == first + (sp + middle) + sp + last;
    } else {
      assert Core(first, middle, last) == first + (sp + middle) + sp + last;
      assert first + sp + (middle + (sp + (last + (sp + suffix)))) == first + (sp + middle) + sp + last + (sp + suffix);
    }
  }

  /**
   * The name as written is the intended name when there is no suffix, and the intended
   * name without its last letter when there is one: the slice meant to drop the trailing
   * space left by an empty suffix drops the suffix's last letter instead.
   */
  lemma FullNameAsWrittenSpec(first: string, middle: string, last: string, suffix: string)
    requires first != [] && last != [] && Word(first) && Word(middle) && Word(last) && Word(suffix)
    ensures suffix == [] ==> FullNameAsWritten(first, middle, last, suffix) == FullName(first, middle, last, suffix)
    ensures suffix != [] ==>
              FullNameAsWritten(first, middle, last, suffix) == DropLast(FullName(first, middle, last, suffix)) != FullName(first, middle, last, suffix)
  {
    SpacedReplaced(first, middle, last, suffix);
    FullNameShape(first, middle, last, suffix);
    var c := Core(first, middle, last);
    if suffix == [] {
      assert (c + " ")[..|c|] == c;
    } else {
      assert c + " " + suffix == c + (" " + suffix);
    }
  }

  /** "A", no middle name, "B", suffix "Jr": the scraper saves "A B J". */
  lemma FullNameAsWrittenSuffix()
    ensures FullNameAsWritten("A", "", "B", "Jr") == "A B J"
    ensures FullName("A", "", "B", "Jr") == "A B Jr"
  {
    FullNameAsWrittenSpec("A", "", "B", "Jr");
    FullNameShape("A", "", "B", "Jr");
    assert Core("A", "", "B") == "A B";
  }

  /** Splitting the intended name on spaces gives back its parts. */
  lemma FullNameSplit(first: string, middle: string, last: string, suffix: string)
    requires first != [] && Word(first) && Word(middle) && Word(last) && Word(suffix)
    ensures Split(FullName(first, middle, last, suffix), ' ') == NonEmpty([first, middle, last, suffix])
  {
    var parts := NonEmpty([first, middle, last, suffix]);
    assert [first, middle, last, suffix][1..] == [middle, last, suffix];
    assert parts[0] == first;
    forall k | 0 <= k < |parts|
      ensures ' ' !in parts[k]
    {
      assert parts[k] in [first, middle, last, suffix];
    }
    SplitJoin(parts, ' ');
    assert Join(parts, [' ']) == Join(parts, " ");
  }

  // ---------------------------------------------------------------- codes

  /** The party codes: `R` and `D` are expanded, any other code is kept. */
  function PartyName(code: string): string {
    if code == "R" then "Republican" else if code == "D" then "Democratic" else code
  }

  /** The house codes: `A` (Assembly) is the lower chamber, `S` the upper; any other value is kept. */
  function ChamberName(house: string): string {
    if house == "A" then "lower" else if house == "S" then "upper" else house
  }

  /** Which values give each party and chamber: its code or its own name; any other value is kept. */
  lemma CodeTablesFrom(code: string)
    ensures PartyName(code) == "Republican" <==> code == "R" || code == "Republican"
    ensures PartyName(code) == "Democratic" <==> code == "D" || code == "Democratic"
    ensures code != "R" && code != "D" ==> PartyName(code) == code
    ensures ChamberName(code) == "lower" <==> code == "A" || code == "lower"
    ensures ChamberName(code) == "upper" <==> code == "S" || code == "upper"
    ensures code != "A" && code != "S" ==> ChamberName(code) == code
  {
  }

  // ---------------------------------------------------------------- district

  /**
   * `str(int(raw))` with Python 2's `int()`: surrounding whitespace, an optional sign
   * (which may be followed by whitespace) and at least one digit; anything else raises
   * `ValueError`. The result has no leading zeros, and zero has no sign.
   */
  function DistrictString(raw: string): Result<string> {
    var t := Strip(raw);
    var negative := |t| > 0 && t[0] == '-';
    var digits := if |t| > 0 && (t[0] == '-' || t[0] == '+') then TrimStart(t[1..]) else t;
    if digits == [] || !AllDigits(digits) then Err(ValueError(raw))
    else
      var n := DecimalValue(digits);
      Ok((if negative && n != 0 then "-" else "") + DecimalString(n))
  }

  /** A district string is canonical: a decimal without leading zeros, negative only when not zero. */
  predicate CanonicalInt(d: string) {
    Canonical(d) || (|d| > 1 && d[0] == '-' && Canonical(d[1..]) && d[1..] != "0")
  }

  lemma DistrictCanonical(raw: string)
    ensures DistrictString(raw).Ok? ==> CanonicalInt(DistrictString(raw).value)
  {
    var t := Strip(raw);
    var digits := if |t| > 0 && (t[0] == '-' || t[0] == '+') then TrimStart(t[1..]) else t;
    if DistrictString(raw).Ok? {
      var n := DecimalValue(digits);
      var d := DecimalString(n);
      if t[0] == '-' && n != 0 {
        assert ("-" + d)[1..] == d;
        DecimalRoundTrip(n);
      }
    }
  }

  /** An unsigned digit string is read as its value. */
  lemma DistrictUnsigned(raw: string, digits: string)
    requires Strip(raw) == digits && digits != [] && AllDigits(digits)
    ensures DistrictString(raw) == Ok(DecimalString(DecimalValue(digits)))
  {
    assert IsDigit(digits[0]);
    assert "" + DecimalString(DecimalValue(digits)) == DecimalString(DecimalValue(digits));
  }

  /** A minus sign before a non-zero digit string is kept. */
  lemma DistrictNegative(raw: string, u: string)
    requires Strip(raw) == "-" + u && u != [] && AllDigits(u) && DecimalValue(u) != 0
    ensures DistrictString(raw) == Ok("-" + DecimalString(DecimalValue(u)))
  {
    var t := Strip(raw);
    assert t[0] == '-' && t[1..] == u;
    assert IsDigit(u[0]);
    StripPaddedStart([], u);
    assert [] + u == u;
  }

  /** A canonical district is read back as itself: `str(int(...))` is idempotent. */
  lemma DistrictIdempotent(raw: string)
    requires DistrictString(raw).Ok?
    ensures DistrictString(DistrictString(raw).value) == DistrictString(raw)
  {
    var d := DistrictString(raw).value;
    DistrictCanonical(raw);
    assert IsDigit(d[|d| - 1]);
    StripPadded([], d, []);
    assert [] + d + [] == d;
    if Canonical(d) {
      DecimalCanonical(d);
      DistrictUnsigned(d, d);
    } else {
      var u := d[1..];
      assert d == "-" + u;
      DecimalCanonical(u);
      assert u[0] != '0' by {
        if |u| == 1 {
          assert u == [u[0]];
        }
      }
      DecimalValuePositive(u);
      DistrictNegative(d, u);
    }
  }

  /** A zero-padded district number is read as the number: leading zeros and padding go. */
  lemma DistrictPadded(pre: string, zeros: string, d: string, post: string)
    requires SpacesOnly(pre) && SpacesOnly(post) && Canonical(d)
    requires forall k :: 0 <= k < |zeros| ==> zeros[k] == '0'
    ensures DistrictString(pre + zeros + d + post) == Ok(d)
  {
    var z := zeros + d;
    DecimalLeadingZeros(zeros, d);
    assert IsDigit(z[0]) && IsDigit(z[|z| - 1]);
    assert pre + zeros + d + post == pre + z + post;
    StripPadded(pre, z, post);
    DecimalCanonical(d);
    DistrictUnsigned(pre + zeros + d + post, z);
  }

  // ---------------------------------------------------------------- roster records

  /** One roster record, with the fields read in the order the scraper reads them. */
  function LegislatorOf(rec: Record, term: string, fileUrl: string): Result<Legislator> {
    var first :- Field(rec, "firstname");
    var middle :- Field(rec, "midname");
    var last :- Field(rec, "lastname");
    var suffix :- Field(rec, "suffix");
    var rawDistrict :- Field(rec, "district");
    var district :- DistrictString(rawDistrict);
    var party :- Field(rec, "party");
    var house :- Field(rec, "house");
    var title :- Field(rec, "title");
    var legalPosition :- Field(rec, "legpos");
    var legStatus :- Field(rec, "legstatus");
    var address :- Field(rec, "address");
    var city :- Field(rec, "city");
    var state :- Field(rec, "state");
    var zipcode :- Field(rec, "zipcode");
    var phone :- Field(rec, "phone");
    var email := if "email" in rec then rec["email"] else "";
    Ok(Legislator(term, ChamberName(house), district, FullNameAsWritten(first, middle, last, suffix), first, last, middle,
                  PartyName(party), suffix, title, legalPosition, legStatus, address, city, state, zipcode,
                  phone, email, [fileUrl]))
  }

  /** The fields a record must have; `email` is optional. */
  predicate HasRequiredFields(rec: Record) {
    && "firstname" in rec && "midname" in rec && "lastname" in rec && "suffix" in rec && "district" in rec
    && "party" in rec && "house" in rec && "title" in rec && "legpos" in rec && "legstatus" in rec
    && "address" in rec && "city" in rec && "state" in rec && "zipcode" in rec && "phone" in rec
  }

  /** A record is saved exactly when it has every required field and a readable district. */
  lemma LegislatorOfSaved(rec: Record, term: string, fileUrl: string)
    ensures LegislatorOf(rec, term, fileUrl).Ok? <==> HasRequiredFields(rec) && DistrictString(rec["district"]).Ok?
  {
  }

  /**
   * A saved legislator carries the record's name and district, the mapped codes, the
   * email or `''`, and the roster file as its source.
   */
  lemma LegislatorOfFields(rec: Record, term: string, fileUrl: string)
    requires LegislatorOf(rec, term, fileUrl).Ok?
    ensures var leg := LegislatorOf(rec, term, fileUrl).value;
      && HasRequiredFields(rec)
      && leg.sources == [fileUrl] && leg.term == term
      && DistrictString(rec["district"]) == Ok(leg.district)
      && leg.party == PartyName(rec["party"]) && leg.chamber == ChamberName(rec["house"])
      && leg.fullName == FullNameAsWritten(rec["firstname"], rec["midname"], rec["lastname"], rec["suffix"])
      && leg.email == (if "email" in rec then rec["email"] else "")
  {
  }

  /**
   * For one-word name parts, the saved full name is the intended one exactly when the
   * record has no suffix; with a suffix it is the intended name short of its last letter.
   */
  lemma LegislatorOfName(rec: Record, term: string, fileUrl: string)
    requires LegislatorOf(rec, term, fileUrl).Ok?
    requires rec["firstname"] != [] && rec["lastname"] != []
    requires Word(rec["firstname"]) && Word(rec["midname"]) && Word(rec["lastname"]) && Word(rec["suffix"])
    ensures var leg := LegislatorOf(rec, term, fileUrl).value;
      var meant := FullName(rec["firstname"], rec["midname"], rec["lastname"], rec["suffix"]);
      && (leg.fullName == meant <==> rec["suffix"] == [])
      && (rec["suffix"] != [] ==> leg.fullName == DropLast(meant))
  {
    FullNameAsWrittenSpec(rec["firstname"], rec["midname"], rec["lastname"], rec["suffix"]);
  }

  /** How a record is read. */
  type RecordReader = Record -> Result<Legislator>

  function ReaderFor(term: string, fileUrl: string): RecordReader {
    rec => LegislatorOf(rec, term, fileUrl)
  }

  /** Records read from the first, up to the first that fails. */
  function RosterRun(recs: seq<Record>, read: RecordReader): (seq<Legislator>, Option<Error>) {
    if recs == [] then ([], None)
    else
      var prev := RosterRun(recs[..|recs| - 1], read);
      if prev.1.Some? then prev
      else match read(recs[|recs| - 1])
        case Err(e) => (prev.0, Some(e))
        case Ok(leg) => (prev.0 + [leg], None)
  }

  /** A roster read through saves one legislator per record, in order; a failing record keeps those saved before it. */
  lemma {:induction false} RosterRunSpec(recs: seq<Record>, read: RecordReader)
    ensures var r := RosterRun(recs, read);
      && (r.1.None? <==> forall k :: 0 <= k < |recs| ==> read(recs[k]).Ok?)
      && (r.1.None? ==> |r.0| == |recs| && forall k :: 0 <= k < |recs| ==> r.0[k] == read(recs[k]).value)
      && |r.0| <= |recs|
  {
    if recs != [] {
      var init := recs[..|recs| - 1];
      RosterRunSpec(init, read);
      assert forall k :: 0 <= k < |init| ==> init[k] == recs[k];
    }
  }

  /** Legislators of the scraped term, each with the roster file as its only source. */
  predicate FromRoster(legs: seq<Legislator>, term: string, fileUrl: string) {
    forall k :: 0 <= k < |legs| ==> legs[k].sources == [fileUrl] && legs[k].term == term
  }

  /** Every legislator saved from a roster has the roster file as its source and the scraped term. */
  lemma {:induction false} RosterRunSources(recs: seq<Record>, term: string, fileUrl: string)
    ensures FromRoster(RosterRun(recs, ReaderFor(term, fileUrl)).0, term, fileUrl)
  {
    if recs != [] {
      var init := recs[..|recs| - 1];
      RosterRunSources(init, term, fileUrl);
      var last := recs[|recs| - 1];
      var read := ReaderFor(term, fileUrl);
      var prev := RosterRun(init, read);
      if prev.1.None? && read(last).Ok? {
        assert read(last) == LegislatorOf(last, term, fileUrl);
        LegislatorOfFields(last, term, fileUrl);
        var r := RosterRun(recs, read);
        assert r.0 == prev.0 + [read(last).value];
        assert forall k :: 0 <= k < |prev.0| ==> r.0[k] == prev.0[k];
      }
    }
  }

  /** Python `term[0:4]`. */
  function Year(term: string): (y: string)
    ensures |y| == if |term| < 4 then |term| else 4
    ensures term == y + term[|y|..]
  {
    if |term| < 4 then term else term[..4]
  }

  /** `scrape`: both chambers read the whole roster of the term's year; any other chamber reads nothing. */
  function Scrape(chamber: string, term: string, roster: string -> (string, seq<Record>)): (seq<Legislator>, Option<Error>) {
    if chamber == "upper" || chamber == "lower" then
      var (fileUrl, recs) := roster(Year(term));
      RosterRun(recs, ReaderFor(term, fileUrl))
    else ([], None)
  }

  /** The two chambers scrape the same roster, and the chamber of each legislator comes from its record. */
  lemma ScrapeChambers(term: string, roster: string -> (string, seq<Record>), other: string)
    requires other != "upper" && other != "lower"
    ensures Scrape("upper", term, roster) == Scrape("lower", term, roster)
    ensures Scrape(other, term, roster) == ([], None)
  {
  }
}
