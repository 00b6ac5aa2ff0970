/**
 * Connecticut bill history (openstates/ct/bills.py, scrape_bill_history): grouping the
 * rows of bill_history.csv by bill, ordering a bill's rows by date, rewriting and typing
 * each action, and the acting-chamber state machine that tags every action.
 */
module CtActions {
  import opened Wrappers
  import opened Text

  datatype Chamber = Upper | Lower

  /** A calendar date as read from its digits (no calendar validation). */
  datatype Date = Date(year: nat, month: nat, day: nat)

  /** One row of bill_history.csv; the CSV reader gives "" for an empty field. */
  datatype HistoryRow = HistoryRow(billNum: string, actDate: string, actDesc: string, qual1: string, qual2: string)

  /** One entry of a bill's action list. */
  datatype Action = Action(chamber: Chamber, text: string, date: Date, types: seq<ActionType>)

  /** The classifications the scraper attaches to an action. */
  datatype ActionType = CommitteeReferred | BillPassed | CommitteePassed(verdict: string) | Other

  /** The name the scraper writes for a classification. */
  function TypeName(t: ActionType): string {
    match t
    case CommitteeReferred => "committee:referred"
    case BillPassed => "bill:passed"
    case CommitteePassed(w) => "committee:passed:" + w
    case Other => "other"
  }

  // ---------------------------------------------------------------- dates

  /** `%m` of strptime: one or two digits naming a month. */
  predicate MonthText(m: string) {
    1 <= |m| <= 2 && AllDigits(m) && 1 <= DecimalValue(m) <= 12
  }

  /** `%d` of strptime: one or two digits naming a day of a month. */
  predicate DayText(d: string) {
    1 <= |d| <= 2 && AllDigits(d) && 1 <= DecimalValue(d) <= 31
  }

  /**
   * `strptime(act_date, "%Y-%m-%d %H:%M:%S").date()`: four digits of year, a month and a
   * day of one or two digits each, and whitespace before the time of day; None where the
   * text does not have that shape.
   */
  function ParseActDate(s: string): Option<Date>
  {
    if |s| < 5 || !AllDigits(s[..4]) || s[4] != '-' then None
    else
      var rest := s[5..];
      var i := IndexOfChar(rest, '-');
      if i == |rest| || !MonthText(rest[..i]) then None
      else
        var tail := rest[i + 1..];
        var j := DigitsEnd(tail, 0);
        if !DayText(tail[..j]) || j == |tail| || !IsSpace(tail[j]) then None
        else Some(Date(DecimalValue(s[..4]), DecimalValue(rest[..i]), DecimalValue(tail[..j])))
  }

  /** Writing a date in the file's layout and reading it back gives its fields. */
  lemma ParseActDateFormat(y: string, m: string, d: string, sep: char, time: string)
    requires |y| == 4 && AllDigits(y) && MonthText(m) && DayText(d) && IsSpace(sep)
    ensures ParseActDate(y + "-" + m + "-" + d + [sep] + time) == Some(Date(DecimalValue(y), DecimalValue(m), DecimalValue(d)))
  {
    var s := y + "-" + m + "-" + d + [sep] + time;
    assert s[..4] == y && s[4] == '-';
    var rest := s[5..];
    assert rest == m + ['-'] + (d + [sep] + time);
    assert '-' !in m by {
      forall k | 0 <= k < |m| ensures m[k] != '-' { assert IsDigit(m[k]); }
    }
    IndexOfCharAfter(m, '-', d + [sep] + time);
    assert rest[..|m|] == m;
    var tail := rest[|m| + 1..];
    assert tail == d + [sep] + time;
    assert tail[..|d|] == d;
    DigitsEndAt(tail, 0, |d|);
  }

  /** A date that reads back names a month of the year and a day of a month. */
  lemma ParseActDateBounds(s: string)
    requires ParseActDate(s).Some?
    ensures var dt := ParseActDate(s).value; 1 <= dt.month <= 12 && 1 <= dt.day <= 31
  {
  }

  /** A text without a dash after its year, or too short for a date and a time, fails. */
  lemma ParseActDateRejectsShort(s: string)
    requires |s| < 9 || s[4] != '-'
    ensures ParseActDate(s).None?
  {
    if |s| >= 5 && AllDigits(s[..4]) && s[4] == '-' {
      var rest := s[5..];
      var i := IndexOfChar(rest, '-');
      if i < |rest| && MonthText(rest[..i]) {
        var tail := rest[i + 1..];
        var j := DigitsEnd(tail, 0);
        assert !(DayText(tail[..j]) && j < |tail|);
      }
    }
  }

  // ---------------------------------------------------------------- grouping and ordering

  /** The rows of `bill`, in file order. */
  function RowsOf(rows: seq<HistoryRow>, bill: string): (r: seq<HistoryRow>)
    ensures |r| <= |rows|
    ensures forall k :: 0 <= k < |r| ==> r[k] in rows && r[k].billNum == bill
  {
    if rows == [] then []
    else RowsOf(rows[..|rows| - 1], bill) + (if rows[|rows| - 1].billNum == bill then [rows[|rows| - 1]] else [])
  }

  /** One more row of the file, seen from one bill. */
  lemma RowsOfStep(rows: seq<HistoryRow>, i: nat, bill: string)
    requires i < |rows|
    ensures RowsOf(rows[..i + 1], bill) == RowsOf(rows[..i], bill) + (if rows[i].billNum == bill then [rows[i]] else [])
  {
    assert rows[..i + 1][..i] == rows[..i];
  }

  lemma {:induction false} RowsOfEmpty(rows: seq<HistoryRow>, bill: string)
    ensures RowsOf(rows, bill) == [] <==> forall k :: 0 <= k < |rows| ==> rows[k].billNum != bill
  {
    if rows != [] {
      RowsOfEmpty(rows[..|rows| - 1], bill);
    }
  }

  /**
   * The `action_rows` table: the history rows of every known bill, grouped by bill in
   * file order; rows of bills not in `known` are dropped, and only bills with rows get an entry.
   */
  method GroupRows(rows: seq<HistoryRow>, known: set<string>) returns (groups: map<string, seq<HistoryRow>>)
    ensures forall id :: id in groups <==> id in known && RowsOf(rows, id) != []
    ensures forall id :: id in groups ==> groups[id] == RowsOf(rows, id)
  {
    groups := map[];
    var i := 0;
    while i < |rows|
      invariant 0 <= i <= |rows|
      invariant forall id :: id in groups <==> id in known && RowsOf(rows[..i], id) != []
      invariant forall id :: id in groups ==> groups[id] == RowsOf(rows[..i], id)
    {
      var row := rows[i];
      ghost var prev := groups;
      if row.billNum in known {
        var sofar := if row.billNum in groups then groups[row.billNum] else [];
        groups := groups[row.billNum := sofar + [row]];
      }
      forall id
        ensures id in groups <==> id in known && RowsOf(rows[..i + 1], id) != []
        ensures id in groups ==> groups[id] == RowsOf(rows[..i + 1], id)
      {
        RowsOfStep(rows, i, id);
        assert id in prev <==> id in known && RowsOf(rows[..i], id) != [];
      }
      i := i + 1;
    }
    assert rows[..i] == rows;
  }

  predicate SortedByDate(s: seq<HistoryRow>) {
    forall i, j :: 0 <= i < j < |s| ==> LexLe(s[i].actDate, s[j].actDate)
  }

  /** The rows of `s` whose act_date is `key`, in order. */
  function WithDate(s: seq<HistoryRow>, key: string): seq<HistoryRow>
  {
    if s == [] then []
    else WithDate(s[..|s| - 1], key) + (if s[|s| - 1].actDate == key then [s[|s| - 1]] else [])
  }

  /** Puts `x` after every row of `s` whose date is not later than its own. */
  function InsertByDate(s: seq<HistoryRow>, x: HistoryRow): seq<HistoryRow>
  {
    if s == [] then [x]
    else if LexLe(s[|s| - 1].actDate, x.actDate) then s + [x]
    else InsertByDate(s[..|s| - 1], x) + [s[|s| - 1]]
  }

  /** `actions.sort(key=itemgetter('act_date'))`: Python's stable sort on the date text. */
  function SortByActDate(rows: seq<HistoryRow>): seq<HistoryRow>
  {
    if rows == [] then []
    else InsertByDate(SortByActDate(rows[..|rows| - 1]), rows[|rows| - 1])
  }

  /** Inserting adds `x` and keeps every row. */
  lemma {:induction false} InsertByDatePermutes(s: seq<HistoryRow>, x: HistoryRow)
    ensures multiset(InsertByDate(s, x)) == multiset(s) + multiset{x}
  {
    if s != [] && !LexLe(s[|s| - 1].actDate, x.actDate) {
      InsertByDatePermutes(s[..|s| - 1], x);
      assert s == s[..|s| - 1] + [s[|s| - 1]];
    }
  }

  /** The sorted rows are a permutation of the rows. */
  lemma {:induction false} SortByActDatePermutes(rows: seq<HistoryRow>)
    ensures multiset(SortByActDate(rows)) == multiset(rows)
  {
    if rows != [] {
      var init, l := rows[..|rows| - 1], rows[|rows| - 1];
      var t := SortByActDate(init);
      calc {
        multiset(SortByActDate(rows));
        multiset(InsertByDate(t, l));
        { InsertByDatePermutes(t, l); }
        multiset(t) + multiset{l};
        { SortByActDatePermutes(init); }
        multiset(init) + multiset{l};
        multiset(init + [l]);
        { assert rows == init + [l]; }
        multiset(rows);
      }
    }
  }

  lemma {:induction false} InsertByDateSorted(s: seq<HistoryRow>, x: HistoryRow)
    requires SortedByDate(s)
    ensures SortedByDate(InsertByDate(s, x))
  {
    if s != [] {
      var l := s[|s| - 1];
      if LexLe(l.actDate, x.actDate) {
        var r := s + [x];
        forall i, j | 0 <= i < j < |r|
          ensures LexLe(r[i].actDate, r[j].actDate)
        {
          if j == |s| && i < |s| - 1 {
            LexLeTransitive(s[i].actDate, l.actDate, x.actDate);
          }
        }
      } else {
        var init := s[..|s| - 1];
        LexLeTotal(l.actDate, x.actDate);
        InsertByDateSorted(init, x);
        InsertByDatePermutes(init, x);
        var m := InsertByDate(init, x);
        var r := m + [l];
        forall i, j | 0 <= i < j < |r|
          ensures LexLe(r[i].actDate, r[j].actDate)
        {
          if j == |m| {
            assert r[i] in multiset(m);
            assert r[i] in multiset(init) || r[i] == x;
            if r[i] != x {
              assert r[i] in init;
              var k :| 0 <= k < |init| && init[k] == r[i];
              assert s[k] == r[i];
            }
          }
        }
      }
    }
  }

  /** The order `scrape_bill_history` emits actions in: by act_date. */
  lemma {:induction false} SortByActDateSorted(rows: seq<HistoryRow>)
    ensures SortedByDate(SortByActDate(rows))
  {
    if rows != [] {
      SortByActDateSorted(rows[..|rows| - 1]);
      InsertByDateSorted(SortByActDate(rows[..|rows| - 1]), rows[|rows| - 1]);
    }
  }

  lemma WithDateAppend(s: seq<HistoryRow>, x: HistoryRow, key: string)
    ensures WithDate(s + [x], key) == WithDate(s, key) + (if x.actDate == key then [x] else [])
  {
    assert (s + [x])[..|s|] == s;
  }

  lemma {:induction false} InsertByDateStable(s: seq<HistoryRow>, x: HistoryRow, key: string)
    ensures WithDate(InsertByDate(s, x), key) == WithDate(s, key) + (if x.actDate == key then [x] else [])
  {
    if s == [] {
      assert InsertByDate(s, x) == [] + [x];
      WithDateAppend([], x, key);
    } else if LexLe(s[|s| - 1].actDate, x.actDate) {
      assert InsertByDate(s, x) == s + [x];
      WithDateAppend(s, x, key);
    } else {
      var init, l := s[..|s| - 1], s[|s| - 1];
      InsertByDateStable(init, x, key);
      LexLeReflexive(x.actDate);
      InsertBeforeLater(init, l, x, key);
      assert init + [l] == s;
    }
  }

  /** The step of InsertByDateStable where `x` moves in front of a later row `l`. */
  lemma InsertBeforeLater(init: seq<HistoryRow>, l: HistoryRow, x: HistoryRow, key: string)
    requires !LexLe(l.actDate, x.actDate) && l.actDate != x.actDate
    requires WithDate(InsertByDate(init, x), key) == WithDate(init, key) + (if x.actDate == key then [x] else [])
    ensures WithDate(InsertByDate(init + [l], x), key) == WithDate(init + [l], key) + (if x.actDate == key then [x] else [])
  {
    var s := init + [l];
    assert s[..|s| - 1] == init;
    var m := InsertByDate(init, x);
    assert InsertByDate(s, x) == m + [l];
    WithDateAppend(m, l, key);
    WithDateAppend(init, l, key);
  }

  /** The sort is stable: rows with the same act_date keep their file order. */
  lemma {:induction false} SortByActDateStable(rows: seq<HistoryRow>, key: string)
    ensures WithDate(SortByActDate(rows), key) == WithDate(rows, key)
  {
    if rows != [] {
      var init, l := rows[..|rows| - 1], rows[|rows| - 1];
      SortByActDateStable(init, key);
      InsertByDateStable(SortByActDate(init), l, key);
    }
  }

  // ---------------------------------------------------------------- rewriting

  const ReferralMarkerLong := "COMMITTEE ON"
  const ReferralMarkerShort := "COMM. ON"
  const OlrOfa := "REFERRED TO OLR, OFA "
  const OlrOfaExpanded := "REFERRED TO Office of Legislative Research AND Office of Fiscal Analysis "

  /** `re.search('COMM(ITTEE|\.) ON$', action)` on a stripped description. */
  predicate IsReferral(action: string) {
    EndsWith(action, ReferralMarkerLong) || EndsWith(action, ReferralMarkerShort)
  }

  /** `self._committee_names.get(code, code)`. */
  function CommitteeName(names: map<string, string>, code: string): string {
    if code in names then names[code] else code
  }

  /** What is appended to the stripped description: the committee name, the qualifiers, or nothing. */
  function Qualifiers(action: string, row: HistoryRow, session: string, names: map<string, string>): string
  {
    if IsReferral(action) then
      " " + CommitteeName(names, row.qual1)
    else if row.qual1 != "" then
      if Contains(row.qual1, session) then
        " (" + row.qual1 + (if row.qual2 != "" then " " + row.qual2 + ")" else "")
      else
        " " + row.qual1
    else
      ""
  }

  /** The text up to (not including) the first newline: what `.*` matches. */
  function UpToNewline(s: string): (r: string)
    ensures StartsWith(s, r) && '\n' !in r
    ensures |r| == |s| || s[|r|] == '\n'
  {
    if s == [] || s[0] == '\n' then [] else [s[0]] + UpToNewline(s[1..])
  }

  predicate IsLeftmost(s: string, pat: string, i: int) {
    OccursAt(s, pat, i) && forall j :: 0 <= j < i ==> !OccursAt(s, pat, j)
  }

  /**
   * `re.search(r'REFERRED TO OLR, OFA (.*)', action)`: when the marker occurs, the whole
   * text becomes the expanded phrase followed by the rest of the marker's line.
   */
  function ExpandOlrOfa(s: string): string
  {
    match Find(s, OlrOfa, 0)
    case None => s
    case Some(i) => OlrOfaExpanded + UpToNewline(s[i + |OlrOfa|..])
  }

  /** The expansion keeps texts without the marker, and otherwise keeps only the rest of the leftmost marker's line. */
  lemma ExpandOlrOfaSpec(s: string)
    ensures !Contains(s, OlrOfa) ==> ExpandOlrOfa(s) == s
    ensures Contains(s, OlrOfa) ==>
              exists i :: IsLeftmost(s, OlrOfa, i) && ExpandOlrOfa(s) == OlrOfaExpanded + UpToNewline(s[i + |OlrOfa|..])
  {
    if Contains(s, OlrOfa) {
      FindSpec(s, OlrOfa, 0);
      var i := Find(s, OlrOfa, 0).value;
      assert IsLeftmost(s, OlrOfa, i);
    }
  }

  /** `re.match(r'^ADOPTED, (HOUSE|SENATE)', action)`. */
  predicate IsAdoption(text: string) {
    StartsWith(text, "ADOPTED, HOUSE") || StartsWith(text, "ADOPTED, SENATE")
  }

  const JointPrefix := "Joint "

  /** `re.match(r'^Joint ((Un)?[Ff]avorable)', action).group(1)`, or None. */
  function JointVerdict(text: string): Option<string>
  {
    if StartsWith(text, JointPrefix) then VerdictWord(text[|JointPrefix|..]) else None
  }

  /** The group `(Un)?[Ff]avorable` at the start of `t`. */
  function VerdictWord(t: string): Option<string>
  {
    if StartsWith(t, "UnFavorable") then Some("UnFavorable")
    else if StartsWith(t, "Unfavorable") then Some("Unfavorable")
    else if StartsWith(t, "Favorable") then Some("Favorable")
    else if StartsWith(t, "favorable") then Some("favorable")
    else None
  }

  predicate IsVerdictWord(w: string) {
    w == "UnFavorable" || w == "Unfavorable" || w == "Favorable" || w == "favorable"
  }

  /** A verdict is found exactly when the text opens with "Joint " and one of the four spellings, which it reports. */
  lemma JointVerdictSpec(text: string)
    ensures JointVerdict(text).Some? ==>
              IsVerdictWord(JointVerdict(text).value) && StartsWith(text, JointPrefix + JointVerdict(text).value)
    ensures JointVerdict(text).None? ==> forall w :: IsVerdictWord(w) ==> !StartsWith(text, JointPrefix + w)
  {
    forall w | IsVerdictWord(w)
      ensures StartsWith(text, JointPrefix + w) <==> StartsWith(text, JointPrefix) && StartsWith(text[|JointPrefix|..], w)
    {
      StartsWithConcat(text, JointPrefix, w);
    }
  }

  /**
   * The action's type list: a referral, an adoption, a joint verdict, in that order,
   * or `other` alone.
   */
  function ActionTypes(referred: bool, text: string): seq<ActionType>
  {
    var t := (if referred then [CommitteeReferred] else [])
             + (if IsAdoption(text) then [BillPassed] else [])
             + (match JointVerdict(text) case Some(w) => [CommitteePassed(w)] case None => []);
    if t == [] then [Other] else t
  }

  /** The type list is never empty, each rule contributes its type exactly when it fires, and `other` stands alone. */
  lemma ActionTypesSpec(referred: bool, text: string)
    ensures var r := ActionTypes(referred, text);
      && r != []
      && (CommitteeReferred in r <==> referred)
      && (BillPassed in r <==> IsAdoption(text))
      && (forall w :: CommitteePassed(w) in r <==> JointVerdict(text) == Some(w))
      && (Other in r <==> !referred && !IsAdoption(text) && JointVerdict(text).None?)
      && (Other in r ==> r == [Other])
  {
  }

  /** What one history row becomes: the rewritten action text and its types. */
  function Rewrite(row: HistoryRow, session: string, names: map<string, string>): (string, seq<ActionType>)
  {
    var text := ActionText(row, session, names);
    (text, ActionTypes(IsReferral(Strip(row.actDesc)), text))
  }

  /** The stripped description with its suffix appended, then the OLR/OFA expansion. */
  function ActionText(row: HistoryRow, session: string, names: map<string, string>): string
  {
    var action := Strip(row.actDesc);
    ExpandOlrOfa(action + Qualifiers(action, row, session, names))
  }

  /** A referral is typed as one, and a description that is not a referral is not. */
  lemma RewriteReferredType(row: HistoryRow, session: string, names: map<string, string>)
    ensures CommitteeReferred in Rewrite(row, session, names).1 <==> IsReferral(Strip(row.actDesc))
  {
    ActionTypesSpec(IsReferral(Strip(row.actDesc)), ActionText(row, session, names));
  }

  /** A referral gets its committee's name, or the raw code when the name is unknown, appended. */
  lemma RewriteReferral(row: HistoryRow, session: string, names: map<string, string>)
    requires IsReferral(Strip(row.actDesc))
    requires !Contains(Strip(row.actDesc) + " " + CommitteeName(names, row.qual1), OlrOfa)
    ensures ActionText(row, session, names) == Strip(row.actDesc) + " " + CommitteeName(names, row.qual1)
  {
    var a := Strip(row.actDesc);
    var q := a + " " + CommitteeName(names, row.qual1);
    assert a + Qualifiers(a, row, session, names) == q;
    assert ExpandOlrOfa(q) == q;
  }

  /** Without a referral, a qualifier naming the session is opened in parentheses, closed only with a second qualifier. */
  lemma RewriteQualified(row: HistoryRow, session: string, names: map<string, string>)
    requires !IsReferral(Strip(row.actDesc)) && row.qual1 != ""
    requires !Contains(Strip(row.actDesc) + Qualifiers(Strip(row.actDesc), row, session, names), OlrOfa)
    ensures Contains(row.qual1, session) && row.qual2 != "" ==>
              ActionText(row, session, names) == Strip(row.actDesc) + " (" + row.qual1 + " " + row.qual2 + ")"
    ensures Contains(row.qual1, session) && row.qual2 == "" ==>
              ActionText(row, session, names) == Strip(row.actDesc) + " (" + row.qual1
    ensures !Contains(row.qual1, session) ==> ActionText(row, session, names) == Strip(row.actDesc) + " " + row.qual1
  {
    var a := Strip(row.actDesc);
    var q := a + Qualifiers(a, row, session, names);
    assert ExpandOlrOfa(q) == q;
    if !Contains(row.qual1, session) {
      assert Qualifiers(a, row, session, names) == " " + row.qual1;
    } else if row.qual2 != "" {
      var tail := " " + row.qual2 + ")";
      assert Qualifiers(a, row, session, names) == " (" + row.qual1 + tail;
      assert a + (" (" + row.qual1 + tail) == a + " (" + row.qual1 + " " + row.qual2 + ")";
    } else {
      assert Qualifiers(a, row, session, names) == " (" + row.qual1 + "";
      assert " (" + row.qual1 + "" == " (" + row.qual1;
    }
  }

  /** Unless the OLR/OFA expansion fires, the action text begins with the stripped description. */
  lemma RewriteKeepsDescription(row: HistoryRow, session: string, names: map<string, string>)
    requires !Contains(Strip(row.actDesc) + Qualifiers(Strip(row.actDesc), row, session, names), OlrOfa)
    ensures StartsWith(ActionText(row, session, names), Strip(row.actDesc))
  {
    var a := Strip(row.actDesc);
    var q := a + Qualifiers(a, row, session, names);
    assert ExpandOlrOfa(q) == q;
    assert q[..|a|] == a;
  }

  /** The rewrite of the rows of one session, with its committee-name table. */
  type Rewriter = HistoryRow -> (string, seq<ActionType>)

  function RewriteFor(session: string, names: map<string, string>): Rewriter
  {
    row => Rewrite(row, session, names)
  }

  // ---------------------------------------------------------------- acting chamber

  const ToHouse := "TRANS.TO HOUSE"
  const ToSenate := "TRANSMITTED TO SENATE"

  /** The acting chamber after one action: a House transfer, then a Senate transfer, is checked. */
  function NextChamber(c: Chamber, text: string): Chamber
  {
    var afterHouse := if Contains(text, ToHouse) then Lower else c;
    if Contains(text, ToSenate) then Upper else afterHouse
  }

  /** The chamber an action transfers the bill to, if any; a Senate transfer wins over a House one. */
  function TransferOf(text: string): (r: Option<Chamber>)
    ensures r == Some(Upper) <==> Contains(text, ToSenate)
    ensures r == Some(Lower) <==> Contains(text, ToHouse) && !Contains(text, ToSenate)
  {
    if Contains(text, ToSenate) then Some(Upper) else if Contains(text, ToHouse) then Some(Lower) else None
  }

  /** The acting chamber after the actions `texts`, starting from `c`. */
  function ChamberAfter(c: Chamber, texts: seq<string>): Chamber
  {
    if texts == [] then c else NextChamber(ChamberAfter(c, texts[..|texts| - 1]), texts[|texts| - 1])
  }

  /** The most recent transfer among `texts`, if there is one. */
  function LastTransfer(texts: seq<string>): Option<Chamber>
  {
    if texts == [] then None
    else match TransferOf(texts[|texts| - 1])
      case Some(c) => Some(c)
      case None => LastTransfer(texts[..|texts| - 1])
  }

  /** The acting chamber is the one named by the most recent transfer, or the bill's own chamber. */
  lemma {:induction false} ChamberAfterIsLastTransfer(c: Chamber, texts: seq<string>)
    ensures ChamberAfter(c, texts) == LastTransfer(texts).GetOr(c)
  {
    if texts != [] {
      ChamberAfterIsLastTransfer(c, texts[..|texts| - 1]);
    }
  }

  /** Until the first transfer, every action is tagged with the bill's own chamber. */
  lemma {:induction false} ChamberAfterNoTransfer(c: Chamber, texts: seq<string>)
    requires forall k :: 0 <= k < |texts| ==> !Contains(texts[k], ToHouse) && !Contains(texts[k], ToSenate)
    ensures ChamberAfter(c, texts) == c
  {
    if texts != [] {
      ChamberAfterNoTransfer(c, texts[..|texts| - 1]);
    }
  }

  /** After a text holding both markers, the Senate is the acting chamber. */
  lemma SenateMarkerWins(c: Chamber, texts: seq<string>, t: string)
    requires Contains(t, ToHouse) && Contains(t, ToSenate)
    ensures ChamberAfter(c, texts + [t]) == Upper
  {
    assert (texts + [t])[..|texts|] == texts;
  }

  // ---------------------------------------------------------------- one bill's actions

  /** The rewritten texts of `rows`, in order. */
  function Texts(rows: seq<HistoryRow>, rw: Rewriter): (r: seq<string>)
    ensures |r| == |rows|
    ensures forall k :: 0 <= k < |rows| ==> r[k] == rw(rows[k]).0
  {
    if rows == [] then [] else Texts(rows[..|rows| - 1], rw) + [rw(rows[|rows| - 1]).0]
  }

  /** The dates of `rows`, or a ValueError for the first row whose date does not parse. */
  function ActDates(rows: seq<HistoryRow>): (r: Result<seq<Date>>)
    ensures r.Ok? ==> |r.value| == |rows|
  {
    if rows == [] then Ok([])
    else
      match ActDates(rows[..|rows| - 1])
      case Err(e) => Err(e)
      case Ok(ds) =>
        match ParseActDate(rows[|rows| - 1].actDate)
        case None => Err(ValueError(rows[|rows| - 1].actDate))
        case Some(d) => Ok(ds + [d])
  }

  /** The dates are read from the rows, position by position. */
  lemma {:induction false} ActDatesAt(rows: seq<HistoryRow>, k: nat)
    requires ActDates(rows).Ok? && k < |rows|
    ensures ParseActDate(rows[k].actDate) == Some(ActDates(rows).value[k])
  {
    var init := rows[..|rows| - 1];
    if k < |init| {
      ActDatesAt(init, k);
      assert rows[k] == init[k];
    }
  }

  /** Reading the dates fails exactly when one of the rows has an unreadable date. */
  lemma {:induction false} ActDatesFail(rows: seq<HistoryRow>)
    ensures ActDates(rows).Err? <==> exists k :: 0 <= k < |rows| && ParseActDate(rows[k].actDate).None?
  {
    if rows != [] {
      var init := rows[..|rows| - 1];
      ActDatesFail(init);
      if ActDates(init).Err? {
        var k :| 0 <= k < |init| && ParseActDate(init[k].actDate).None?;
        assert rows[k] == init[k];
      }
      forall k | 0 <= k < |init| && ParseActDate(init[k].actDate).None?
        ensures ActDates(init).Err?
      {
        assert init[k] == rows[k];
      }
    }
  }

  /** The failure is the one of the first unreadable row: once a prefix fails, so does every extension, alike. */
  lemma ActDatesPrefixErr(rows: seq<HistoryRow>, i: nat)
    requires i <= |rows| && ActDates(rows[..i]).Err?
    ensures ActDates(rows) == ActDates(rows[..i])
    decreases |rows| - i
  {
    if i < |rows| {
      assert rows[..i + 1][..i] == rows[..i];
      ActDatesPrefixErr(rows, i + 1);
    } else {
      assert rows[..i] == rows;
    }
  }

  /** The actions of `rows` dated `ds`, each tagged with the chamber in force before its own text is seen. */
  function Tagged(chamber: Chamber, rows: seq<HistoryRow>, ds: seq<Date>, rw: Rewriter): (r: seq<Action>)
    requires |ds| == |rows|
    ensures |r| == |rows|
  {
    if rows == [] then []
    else
      var init, row := rows[..|rows| - 1], rows[|rows| - 1];
      var (text, types) := rw(row);
      Tagged(chamber, init, ds[..|ds| - 1], rw) + [Action(ChamberAfter(chamber, Texts(init, rw)), text, ds[|ds| - 1], types)]
  }

  /**
   * The actions `scrape_bill_history` adds for one bill whose sorted rows are `rows`: one
   * per row in that order; the first row whose date does not parse aborts with a ValueError.
   */
  function BillActions(chamber: Chamber, rows: seq<HistoryRow>, rw: Rewriter): Result<seq<Action>>
  {
    match ActDates(rows)
    case Err(e) => Err(e)
    case Ok(ds) => Ok(Tagged(chamber, rows, ds, rw))
  }

  /**
   * The action at position k comes from the k-th sorted row: its date, its rewritten text
   * and types, and the chamber named by the latest transfer among the earlier actions
   * (the bill's own chamber when there was none).
   */
  lemma {:induction false} TaggedAt(chamber: Chamber, rows: seq<HistoryRow>, ds: seq<Date>, rw: Rewriter, k: nat)
    requires |ds| == |rows| && k < |rows|
    ensures var a := Tagged(chamber, rows, ds, rw)[k];
      && a.date == ds[k]
      && (a.text, a.types) == rw(rows[k])
      && a.chamber == LastTransfer(Texts(rows[..k], rw)).GetOr(chamber)
  {
    var init := rows[..|rows| - 1];
    var acts := Tagged(chamber, rows, ds, rw);
    if k == |init| {
      assert rows[..k] == init;
      ChamberAfterIsLastTransfer(chamber, Texts(init, rw));
    } else {
      assert rows[..k] == init[..k];
      assert rows[k] == init[k];
      assert acts[k] == Tagged(chamber, init, ds[..|ds| - 1], rw)[k];
      TaggedAt(chamber, init, ds[..|ds| - 1], rw, k);
    }
  }

  /** One action per row, each built as described by TaggedAt, or the error of an unreadable date. */
  lemma BillActionsAt(chamber: Chamber, rows: seq<HistoryRow>, rw: Rewriter, k: nat)
    requires BillActions(chamber, rows, rw).Ok? && k < |rows|
    ensures |BillActions(chamber, rows, rw).value| == |rows|
    ensures var a := BillActions(chamber, rows, rw).value[k];
      && ParseActDate(rows[k].actDate) == Some(a.date)
      && (a.text, a.types) == rw(rows[k])
      && a.chamber == LastTransfer(Texts(rows[..k], rw)).GetOr(chamber)
  {
    ActDatesAt(rows, k);
    TaggedAt(chamber, rows, ActDates(rows).value, rw, k);
  }

  /** A bill's actions fail to build exactly when one of its rows has an unreadable date. */
  lemma BillActionsFail(chamber: Chamber, rows: seq<HistoryRow>, rw: Rewriter)
    ensures BillActions(chamber, rows, rw).Err? <==>
              exists k :: 0 <= k < |rows| && ParseActDate(rows[k].actDate).None?
  {
    ActDatesFail(rows);
  }

  /** Extending the rows by one readable row extends the dates, the actions and the chamber by one step. */
  lemma ActionsStep(chamber: Chamber, rows: seq<HistoryRow>, i: nat, dates: seq<Date>, rw: Rewriter)
    requires i < |rows| && ActDates(rows[..i]) == Ok(dates) && ParseActDate(rows[i].actDate).Some?
    ensures var d := ParseActDate(rows[i].actDate).value;
      && ActDates(rows[..i + 1]) == Ok(dates + [d])
      && Tagged(chamber, rows[..i + 1], dates + [d], rw)
         == Tagged(chamber, rows[..i], dates, rw) + [Action(ChamberAfter(chamber, Texts(rows[..i], rw)), rw(rows[i]).0, d, rw(rows[i]).1)]
      && ChamberAfter(chamber, Texts(rows[..i + 1], rw)) == NextChamber(ChamberAfter(chamber, Texts(rows[..i], rw)), rw(rows[i]).0)
  {
    var d := ParseActDate(rows[i].actDate).value;
    var pre := rows[..i + 1];
    assert pre[..i] == rows[..i];
    assert (dates + [d])[..i] == dates;
    assert Texts(pre, rw) == Texts(rows[..i], rw) + [rw(rows[i]).0];
    assert Texts(pre, rw)[..i] == Texts(rows[..i], rw);
  }

  /**
   * The loop of `scrape_bill_history` over one bill's sorted rows, carrying the acting
   * chamber from one action to the next.
   */
  method BuildActions(chamber: Chamber, rows: seq<HistoryRow>, rw: Rewriter) returns (r: Result<seq<Action>>)
    ensures r == BillActions(chamber, rows, rw)
  {
    var acts: seq<Action> := [];
    ghost var dates: seq<Date> := [];
    var actChamber := chamber;
    var i := 0;
    while i < |rows|
      invariant 0 <= i <= |rows|
      invariant ActDates(rows[..i]) == Ok(dates)
      invariant acts == Tagged(chamber, rows[..i], dates, rw)
      invariant actChamber == ChamberAfter(chamber, Texts(rows[..i], rw))
    {
      var row := rows[i];
      var date := ParseActDate(row.actDate);
      if date.None? {
        assert rows[..i + 1][..i] == rows[..i];
        ActDatesPrefixErr(rows, i + 1);
        return Err(ValueError(row.actDate));
      }
      ActionsStep(chamber, rows, i, dates, rw);
      var (action, actType) := rw(row);
      acts := acts + [Action(actChamber, action, date.value, actType)];
      dates := dates + [date.value];
      // the two transfer tests, the Senate one last
      actChamber := NextChamber(actChamber, action);
      i := i + 1;
    }
    assert rows[..i] == rows;
    r := Ok(acts);
  }
}
