/**
 * Connecticut roll calls (openstates/ct/bills.py, scrape_vote): the column layout of the
 * House and Senate roll-call tables, the four counts, the pass rule, the date after
 * "Taken on", and the classification of every roster entry as yea, nay or other.
 */
module CtVotes {
  import opened Wrappers
  import opened Text
  import opened CtActions

  /**
   * What the scraper reads from one roll-call page: the raw page text, the string value
   * of the first span holding each caption ("" when there is none), and the tables, each
   * a list of rows, each row the string values of its cells.
   */
  datatype VotePage = VotePage(
    raw: string,
    yea: string,
    nay: string,
    absent: string,
    necessary: string,
    takenOn: string,
    tables: seq<seq<seq<string>>>)

  /** One recorded roll call. */
  datatype Vote = Vote(
    chamber: Chamber,
    date: Date,
    motion: string,
    passed: bool,
    yesCount: nat,
    noCount: nat,
    otherCount: nat,
    yes: seq<string>,
    no: seq<string>,
    other: seq<string>,
    sources: seq<string>)

  /** Where a roster table keeps its column groups, and where a group keeps its name and its two marks. */
  datatype Layout = Layout(chamber: Chamber, cols: seq<nat>, nameOffset: nat, yesOffset: nat, noOffset: nat)

  const HouseMarker := "VOTE/H"
  const BudgetMarker := "BUDGET ADDRESS"

  /** The House table has four column groups of four cells, the Senate table two groups of five. */
  function LayoutFor(url: string): (l: Layout)
    ensures l.chamber == Lower <==> Contains(url, HouseMarker)
  {
    if Contains(url, HouseMarker) then Layout(Lower, [1, 5, 9, 13], 3, 0, 1)
    else Layout(Upper, [1, 6], 4, 1, 2)
  }

  // ---------------------------------------------------------------- counts

  /** `int(re.match(r'[^\d]*(\d+)[^\d]*', caption).group(1))`; a caption without digits fails the match. */
  function Count(caption: string): Result<nat>
  {
    match FirstDigitRun(caption)
    case None => Err(AttributeError(caption))
    case Some(d) => Ok(DecimalValue(d))
  }

  /** A count is read exactly when the caption holds a digit, and it is the value of the caption's first digit run. */
  lemma CountSpec(caption: string)
    ensures Count(caption).Ok? <==> exists k :: 0 <= k < |caption| && IsDigit(caption[k])
    ensures Count(caption).Ok? ==>
              exists i, d :: IsFirstDigitRunAt(caption, i, d) && Count(caption).value == DecimalValue(d)
  {
    FirstDigitRunSpec(caption);
    if !(forall k :: 0 <= k < |caption| ==> !IsDigit(caption[k])) {
      var d := FirstDigitRun(caption).value;
      var i :| IsFirstDigitRunAt(caption, i, d);
      assert Count(caption).value == DecimalValue(d);
    }
  }

  /** A number written after digit-free text, and not followed by a digit, is read back. */
  lemma CountRoundTrip(pre: string, n: nat, post: string)
    requires forall k :: 0 <= k < |pre| ==> !IsDigit(pre[k])
    requires post == [] || !IsDigit(post[0])
    ensures Count(pre + DecimalString(n) + post) == Ok(n)
  {
    var d := DecimalString(n);
    var s := pre + d + post;
    assert s[|pre|..|pre| + |d|] == d;
    assert IsFirstDigitRunAt(s, |pre|, d) by {
      forall k | 0 <= k < |pre| ensures !IsDigit(s[k]) {
        assert s[k] == pre[k];
      }
      if post != [] {
        assert s[|pre| + |d|] == post[0];
      }
    }
    FirstDigitRunSpec(s);
    assert IsDigit(s[|pre|]) by {
      assert s[|pre|] == d[0];
    }
    var e := FirstDigitRun(s).value;
    var j :| IsFirstDigitRunAt(s, j, e);
    FirstDigitRunUnique(s, j, e, |pre|, d);
    DecimalRoundTrip(n);
  }

  /** `yes_count > need_count`: a roll call passes only with strictly more yeas than required. */
  predicate Passes(yesCount: nat, needCount: nat) {
    yesCount > needCount
  }

  // ---------------------------------------------------------------- date

  /**
   * The group `(\d+/\s?\d+)` when `Taken\s+on\s+(\d+/\s?\d+)` matches with "Taken" at `p`.
   * Every run is maximal: a shorter one could not be followed by what the pattern needs next.
   */
  function TakenOnAt(s: string, p: nat): Option<string>
  {
    if !OccursAt(s, "Taken", p) then None
    else
      var a := p + 5;
      var b := SpacesEnd(s, a);
      if b == a || !OccursAt(s, "on", b) then None
      else
        var c := b + 2;
        var d := SpacesEnd(s, c);
        if d == c then None else DateAt(s, d)
  }

  /** The group `(\d+/\s?\d+)` when it matches at `d`, every run maximal. */
  function DateAt(s: string, d: nat): Option<string>
    requires d <= |s|
  {
    var e := DigitsEnd(s, d);
    if e == d || e == |s| || s[e] != '/' then None
    else
      var f := if e + 1 < |s| && IsSpace(s[e + 1]) then e + 2 else e + 1;
      var g := DigitsEnd(s, f);
      if g == f then None else Some(s[d..g])
  }

  /**
   * The pattern matches at `p` when "Taken", a run of whitespace up to `b`, "on", a run of
   * whitespace up to `dd`, digits up to `e`, a slash, at most one whitespace character and
   * digits up to `g` follow each other, every run maximal; the group runs from `dd` to `g`.
   */
  lemma TakenOnAtRuns(s: string, p: nat, b: nat, dd: nat, e: nat, f: nat, g: nat)
    requires OccursAt(s, "Taken", p) && p + 5 < b <= |s| && SpacesOnly(s[p + 5..b]) && OccursAt(s, "on", b)
    requires b + 2 < dd < e < |s| && SpacesOnly(s[b + 2..dd]) && AllDigits(s[dd..e]) && s[e] == '/'
    requires f == if e + 1 < |s| && IsSpace(s[e + 1]) then e + 2 else e + 1
    requires f < g <= |s| && AllDigits(s[f..g]) && (g == |s| || !IsDigit(s[g]))
    ensures TakenOnAt(s, p) == Some(s[dd..g])
  {
    assert !IsSpace(s[b]) by {
      assert s[b] == s[b..b + 2][0];
    }
    assert IsDigit(s[dd..e][0]);
    SpacesEndAt(s, p + 5, b);
    SpacesEndAt(s, b + 2, dd);
    DateAtRuns(s, dd, e, f, g);
  }

  /** The date group runs from `dd` over digits to `e`, a slash, at most one whitespace character and digits to `g`. */
  lemma DateAtRuns(s: string, dd: nat, e: nat, f: nat, g: nat)
    requires dd < e < |s| && AllDigits(s[dd..e]) && s[e] == '/'
    requires f == if e + 1 < |s| && IsSpace(s[e + 1]) then e + 2 else e + 1
    requires f < g <= |s| && AllDigits(s[f..g]) && (g == |s| || !IsDigit(s[g]))
    ensures DateAt(s, dd) == Some(s[dd..g])
  {
    DigitsEndAt(s, dd, e);
    DigitsEndAt(s, f, g);
  }

  /** "Taken", whitespace, "on" and whitespace after `pre`, whatever follows them. */
  lemma HeadPieces(pre: string, ws1: string, ws2: string, t: string, post: string)
    requires ws1 != [] && SpacesOnly(ws1) && SpacesOnly(ws2) && t != []
    ensures var s := (pre + "Taken" + ws1 + "on" + ws2) + t + post;
      var b := |pre| + 5 + |ws1|;
      var dd := b + 2 + |ws2|;
      && OccursAt(s, "Taken", |pre|) && |pre| + 5 < b && SpacesOnly(s[|pre| + 5..b]) && OccursAt(s, "on", b)
      && dd < |s| && SpacesOnly(s[b + 2..dd]) && dd == |pre + "Taken" + ws1 + "on" + ws2|
  {
    var head := pre + "Taken" + ws1 + "on" + ws2;
    var s := head + t + post;
    var a := |pre| + 5;
    var b := a + |ws1|;
    assert s[..|head|] == head;
    assert head[|pre|..a] == "Taken" && head[a..b] == ws1 && head[b..b + 2] == "on" && head[b + 2..] == ws2;
    assert s[|pre|..a] == head[|pre|..a];
    assert s[a..b] == head[a..b];
    assert s[b..b + 2] == head[b..b + 2];
    assert s[b + 2..|head|] == head[b + 2..];
  }

  /** A month, a slash, at most one blank and a day after `head`, with no digit after them. */
  lemma DatePieces(head: string, m: string, gap: string, d: string, post: string)
    requires m != [] && AllDigits(m) && d != [] && AllDigits(d) && (gap == "" || gap == " ")
    requires post == [] || !IsDigit(post[0])
    ensures var s := head + (m + "/" + gap + d) + post;
      var dd := |head|;
      var e := dd + |m|;
      var f := e + 1 + |gap|;
      var g := f + |d|;
      && e < |s| && AllDigits(s[dd..e]) && s[e] == '/'
      && (f == if e + 1 < |s| && IsSpace(s[e + 1]) then e + 2 else e + 1)
      && f < g <= |s| && AllDigits(s[f..g]) && (g == |s| || !IsDigit(s[g])) && s[dd..g] == m + "/" + gap + d
  {
    var t := m + "/" + gap + d;
    var s := head + t + post;
    var dd := |head|;
    var e := dd + |m|;
    var f := e + 1 + |gap|;
    var g := f + |d|;
    assert s[dd..g] == t;
    assert t[..|m|] == m && t[|m|] == '/' && t[|m| + 1 + |gap|..] == d;
    assert s[dd..e] == m;
    assert s[f..g] == d;
    assert s[e] == '/';
    if gap == "" {
      assert s[e + 1] == d[0];
      assert !IsSpace(d[0]) by {
        assert IsDigit(d[0]);
      }
    } else {
      assert s[e + 1] == ' ';
    }
    assert g < |s| ==> s[g] == post[0];
  }

  /** A line announcing "Taken on M/D" (or "M/ D") at `|pre|` yields that date text. */
  lemma TakenOnAtReads(pre: string, ws1: string, ws2: string, m: string, gap: string, d: string, post: string)
    requires ws1 != [] && SpacesOnly(ws1) && ws2 != [] && SpacesOnly(ws2)
    requires m != [] && AllDigits(m) && d != [] && AllDigits(d) && (gap == "" || gap == " ")
    requires post == [] || !IsDigit(post[0])
    ensures TakenOnAt((pre + "Taken" + ws1 + "on" + ws2) + (m + "/" + gap + d) + post, |pre|) == Some(m + "/" + gap + d)
  {
    var head := pre + "Taken" + ws1 + "on" + ws2;
    var t := m + "/" + gap + d;
    HeadPieces(pre, ws1, ws2, t, post);
    DatePieces(head, m, gap, d, post);
    var dd := |head|;
    var e := dd + |m|;
    var f := e + 1 + |gap|;
    TakenOnAtRuns(head + t + post, |pre|, |pre| + 5 + |ws1|, dd, e, f, f + |d|);
  }

  /** The first match of `m` going down from `from` to 0. */
  function LastMatch(m: nat -> Option<string>, from: nat): Option<string>
  {
    match m(from)
    case Some(g) => Some(g)
    case None => if from == 0 then None else LastMatch(m, from - 1)
  }

  /** The match of the latest start `p`, going down from `from`, where the pattern matches. */
  function LastTakenOn(s: string, from: nat): Option<string>
  {
    LastMatch((q: nat) => TakenOnAt(s, q), from)
  }

  /** No start after `q`, up to `p`, matches the pattern. */
  predicate NoTakenOnAfter(s: string, q: nat, p: nat) {
    forall r: nat :: q < r <= p ==> TakenOnAt(s, r).None?
  }

  /** `m` matches at no start after `q`, up to `p`. */
  predicate NoMatchAfter(m: nat -> Option<string>, q: nat, p: nat) {
    forall r: nat :: q < r <= p ==> m(r).None?
  }

  /** A match found going down comes from the latest start where `m` matches. */
  lemma {:induction false} LastMatchSome(m: nat -> Option<string>, p: nat)
    requires LastMatch(m, p).Some?
    ensures exists q: nat :: q <= p && m(q) == LastMatch(m, p) && NoMatchAfter(m, q, p)
  {
    if m(p).Some? {
      assert NoMatchAfter(m, p, p);
    } else {
      LastMatchSome(m, p - 1);
      var q: nat :| q <= p - 1 && m(q) == LastMatch(m, p - 1) && NoMatchAfter(m, q, p - 1);
      assert NoMatchAfter(m, q, p);
    }
  }

  /** Going down finds nothing only when `m` matches at no start up to `p`. */
  lemma {:induction false} LastMatchNone(m: nat -> Option<string>, p: nat, q: nat)
    requires LastMatch(m, p).None? && q <= p
    ensures m(q).None?
  {
    if q < p {
      LastMatchNone(m, p - 1, q);
    }
  }

  /**
   * The match comes from the latest start up to `p` where the pattern matches, and there
   * is none exactly when the pattern matches at no start up to `p`.
   */
  lemma LastTakenOnSpec(s: string, p: nat)
    ensures LastTakenOn(s, p).Some? ==>
              exists q: nat :: q <= p && TakenOnAt(s, q) == LastTakenOn(s, p) && NoTakenOnAfter(s, q, p)
    ensures LastTakenOn(s, p).None? ==> forall q: nat :: q <= p ==> TakenOnAt(s, q).None?
  {
    var m := (q: nat) => TakenOnAt(s, q);
    if LastMatch(m, p).Some? {
      LastMatchSome(m, p);
      var q: nat :| q <= p && m(q) == LastMatch(m, p) && NoMatchAfter(m, q, p);
      assert NoTakenOnAfter(s, q, p) by {
        forall r: nat | q < r <= p ensures TakenOnAt(s, r).None? {
          assert m(r).None?;
        }
      }
    } else {
      forall q: nat | q <= p ensures TakenOnAt(s, q).None? {
        LastMatchNone(m, p, q);
      }
    }
  }

  /**
   * `re.match(r'.*Taken\s+on\s+(\d+/\s?\d+)', text).group(1)`: the greedy `.*` cannot
   * cross a newline, so "Taken" starts on the first line, as late as the rest allows.
   */
  function TakenOnGroup(s: string): Option<string>
  {
    LastTakenOn(s, |UpToNewline(s)|)
  }

  /** `strptime(group.replace(' ', '') + " " + session, "%m/%d %Y").date()`. */
  function VoteDate(group: string, session: string): Result<Date>
  {
    var t := Replace(group, " ", "");
    var i := IndexOfChar(t, '/');
    if i < |t| && MonthText(t[..i]) && DayText(t[i + 1..]) && |session| == 4 && AllDigits(session)
    then Ok(Date(DecimalValue(session), DecimalValue(t[..i]), DecimalValue(t[i + 1..])))
    else Err(ValueError(t))
  }

  /** The date a roll-call page announces, or why there is none. */
  function TakenOnDate(text: string, session: string): Result<Date>
  {
    match TakenOnGroup(text)
    case None => Err(AttributeError(text))
    case Some(g) => VoteDate(g, session)
  }

  /** A month and a day written as "M/ D" or "M/D" are read back with the session's year. */
  lemma {:induction false} VoteDateFormat(m: string, d: string, gap: string, session: string)
    requires MonthText(m) && DayText(d) && (gap == "" || gap == " ")
    requires |session| == 4 && AllDigits(session)
    ensures VoteDate(m + "/" + gap + d, session) == Ok(Date(DecimalValue(session), DecimalValue(m), DecimalValue(d)))
  {
    GapRemoved(m, d, gap);
    var t := m + [('/')] + d;
    IndexOfCharAfter(m, '/', d);
    assert t[..|m|] == m;
    assert t[|m| + 1..] == d;
  }

  /** The space the pattern allows after the slash is removed, and nothing else. */
  lemma {:induction false} GapRemoved(m: string, d: string, gap: string)
    requires AllDigits(m) && AllDigits(d) && (gap == "" || gap == " ")
    ensures Replace(m + "/" + gap + d, " ", "") == m + [('/')] + d
  {
    var head := m + "/";
    NoSpaceInDate(m, d);
    ReplaceAppendFree(d, [], " ", "");
    assert d + [] == d;
    ReplaceAppendFree(head, gap + d, " ", "");
    assert m + "/" + gap + d == head + (gap + d);
    if gap == " " {
      ReplaceAtStart(" ", d, "");
      assert Replace(gap + d, " ", "") == d;
    } else {
      assert gap + d == d;
    }
    assert head + d == m + [('/')] + d;
  }

  /** Digits and a slash hold no space. */
  lemma NoSpaceInDate(m: string, d: string)
    requires AllDigits(m) && AllDigits(d)
    ensures ' ' !in m + "/" && ' ' !in d
  {
    var head := m + "/";
    assert forall k :: 0 <= k < |head| ==> head[k] == '/' || IsDigit(head[k]);
    assert forall k :: 0 <= k < |d| ==> IsDigit(d[k]);
  }

  // ---------------------------------------------------------------- roster

  /** `row.xpath("string(td[k])")`: the k-th cell, counting from 1, or "" beyond the row. */
  function Cell(row: seq<string>, k: nat): string {
    if 1 <= k <= |row| then row[k - 1] else ""
  }

  datatype Mark = Yea | Nay | Absent

  /** How the entry of the group starting at column `i` is recorded, if its name is not blank. */
  function Entry(row: seq<string>, l: Layout, i: nat): Option<(Mark, string)>
  {
    var name := TextStrip(Cell(row, i + l.nameOffset));
    if name == "" then None
    else if Contains(Cell(row, i + l.yesOffset), "Y") then Some((Yea, name))
    else if Contains(Cell(row, i + l.noOffset), "N") then Some((Nay, name))
    else Some((Absent, name))
  }

  /** The entries of one row, group by group. */
  function RowEntries(row: seq<string>, l: Layout, cols: seq<nat>): seq<(Mark, string)>
  {
    if cols == [] then [] else RowEntries(row, l, cols[..|cols| - 1]) + EntryList(row, l, cols[|cols| - 1])
  }

  /** The entry of one group, as a list of at most one. */
  function EntryList(row: seq<string>, l: Layout, i: nat): seq<(Mark, string)>
  {
    match Entry(row, l, i)
    case None => []
    case Some(e) => [e]
  }

  /** The entries of a table, row by row. */
  function TableEntries(rows: seq<seq<string>>, l: Layout): seq<(Mark, string)>
  {
    if rows == [] then [] else TableEntries(rows[..|rows| - 1], l) + RowEntries(rows[|rows| - 1], l, l.cols)
  }

  /** The names of `es` recorded with mark `m`, in order. */
  function Marked(es: seq<(Mark, string)>, m: Mark): seq<string>
  {
    if es == [] then [] else Marked(es[..|es| - 1], m) + (if es[|es| - 1].0 == m then [es[|es| - 1].1] else [])
  }

  function Names(es: seq<(Mark, string)>): seq<string>
  {
    if es == [] then [] else Names(es[..|es| - 1]) + [es[|es| - 1].1]
  }

  lemma MarkedAppend(es: seq<(Mark, string)>, fs: seq<(Mark, string)>, m: Mark)
    ensures Marked(es + fs, m) == Marked(es, m) + Marked(fs, m)
    decreases |fs|
  {
    if fs == [] {
      assert es + fs == es;
    } else {
      var init, x := fs[..|fs| - 1], fs[|fs| - 1];
      assert (es + fs)[..|es + fs| - 1] == es + init;
      MarkedAppend(es, init, m);
    }
  }

  /** Recording one more entry adds its name to the list of its mark, and to no other. */
  lemma MarkedStep(es: seq<(Mark, string)>, m: Mark, name: string)
    ensures Marked(es + [(m, name)], Yea) == Marked(es, Yea) + (if m == Yea then [name] else [])
    ensures Marked(es + [(m, name)], Nay) == Marked(es, Nay) + (if m == Nay then [name] else [])
    ensures Marked(es + [(m, name)], Absent) == Marked(es, Absent) + (if m == Absent then [name] else [])
  {
    assert (es + [(m, name)])[..|es|] == es;
  }

  /** The entries of one more column group. */
  lemma RowEntriesStep(row: seq<string>, l: Layout, cols: seq<nat>, c: nat)
    requires c < |cols|
    ensures RowEntries(row, l, cols[..c + 1]) == RowEntries(row, l, cols[..c]) + EntryList(row, l, cols[c])
  {
    assert cols[..c + 1][..c] == cols[..c];
  }

  /** Every recorded entry lands in exactly one of the three lists. */
  lemma {:induction false} MarkedPartition(es: seq<(Mark, string)>)
    ensures multiset(Marked(es, Yea)) + multiset(Marked(es, Nay)) + multiset(Marked(es, Absent)) == multiset(Names(es))
  {
    if es != [] {
      MarkedPartition(es[..|es| - 1]);
    }
  }

  /**
   * An entry is recorded for a group exactly when its name cell is not blank (ASCII
   * whitespace, or Unicode whitespace such as `&nbsp;` in a `unicode` cell), under the stripped name.
   */
  lemma EntrySpec(row: seq<string>, l: Layout, i: nat)
    ensures Entry(row, l, i).Some? <==> !BlankText(Cell(row, i + l.nameOffset))
    ensures Entry(row, l, i).Some? ==> Entry(row, l, i).value.1 == TextStrip(Cell(row, i + l.nameOffset))
    ensures Entry(row, l, i).Some? ==>
              (Entry(row, l, i).value.0 == Yea <==> Contains(Cell(row, i + l.yesOffset), "Y"))
    ensures Entry(row, l, i).Some? ==>
              (Entry(row, l, i).value.0 == Nay <==>
                 !Contains(Cell(row, i + l.yesOffset), "Y") && Contains(Cell(row, i + l.noOffset), "N"))
  {
    TextStripBlank(Cell(row, i + l.nameOffset));
  }

  /** A name cell holding only `&nbsp;` (U+00A0, which makes the text a `unicode`) is blank: the group is skipped. */
  lemma NbspNameSkipped(row: seq<string>, l: Layout, i: nat)
    requires Cell(row, i + l.nameOffset) == "\U{00A0}"
    ensures Entry(row, l, i).None?
  {
    var t := Cell(row, i + l.nameOffset);
    assert !IsAscii(t) by {
      assert !(t[0] < '\U{0080}');
    }
    TextStripBlank(t);
  }

  /** A roster entry takes no mark from blank groups: a row of blank names contributes nothing. */
  lemma {:induction false} BlankRowSkipped(row: seq<string>, l: Layout, cols: seq<nat>)
    requires forall k :: 0 <= k < |cols| ==> BlankText(Cell(row, cols[k] + l.nameOffset))
    ensures RowEntries(row, l, cols) == []
  {
    if cols != [] {
      TextStripBlank(Cell(row, cols[|cols| - 1] + l.nameOffset));
      BlankRowSkipped(row, l, cols[..|cols| - 1]);
    }
  }

  /**
   * The loop of `scrape_vote` over the table's rows: every group with a name is recorded
   * once, as a yea, a nay or other.
   */
  method ClassifyRoster(rows: seq<seq<string>>, l: Layout) returns (yes: seq<string>, no: seq<string>, other: seq<string>)
    ensures yes == Marked(TableEntries(rows, l), Yea)
    ensures no == Marked(TableEntries(rows, l), Nay)
    ensures other == Marked(TableEntries(rows, l), Absent)
  {
    yes, no, other := [], [], [];
    var r := 0;
    while r < |rows|
      invariant 0 <= r <= |rows|
      invariant yes == Marked(TableEntries(rows[..r], l), Yea)
      invariant no == Marked(TableEntries(rows[..r], l), Nay)
      invariant other == Marked(TableEntries(rows[..r], l), Absent)
    {
      ghost var before := TableEntries(rows[..r], l);
      yes, no, other := ClassifyRow(rows[r], l, yes, no, other);
      assert rows[..r + 1][..r] == rows[..r];
      assert TableEntries(rows[..r + 1], l) == before + RowEntries(rows[r], l, l.cols);
      MarkedAppend(before, RowEntries(rows[r], l, l.cols), Yea);
      MarkedAppend(before, RowEntries(rows[r], l, l.cols), Nay);
      MarkedAppend(before, RowEntries(rows[r], l, l.cols), Absent);
      r := r + 1;
    }
    assert rows[..r] == rows;
  }

  /** `yes`, `no` and `other` extend `yes0`, `no0` and `other0` by the names of `es`, mark by mark. */
  predicate Classified(es: seq<(Mark, string)>, yes0: seq<string>, no0: seq<string>, other0: seq<string>,
                       yes: seq<string>, no: seq<string>, other: seq<string>)
  {
    yes == yes0 + Marked(es, Yea) && no == no0 + Marked(es, Nay) && other == other0 + Marked(es, Absent)
  }

  /** Adding the name of one more entry to the list of its mark keeps the lists classified. */
  lemma ClassifiedStep(es: seq<(Mark, string)>, yes0: seq<string>, no0: seq<string>, other0: seq<string>,
                       yes: seq<string>, no: seq<string>, other: seq<string>, m: Mark, name: string)
    requires Classified(es, yes0, no0, other0, yes, no, other)
    ensures Classified(es + [(m, name)], yes0, no0, other0,
                       if m == Yea then yes + [name] else yes,
                       if m == Nay then no + [name] else no,
                       if m == Absent then other + [name] else other)
  {
    MarkedStep(es, m, name);
  }

  /** The inner loop over one row's column groups, adding to the three lists. */
  method ClassifyRow(row: seq<string>, l: Layout, yes0: seq<string>, no0: seq<string>, other0: seq<string>)
    returns (yes: seq<string>, no: seq<string>, other: seq<string>)
    ensures yes == yes0 + Marked(RowEntries(row, l, l.cols), Yea)
    ensures no == no0 + Marked(RowEntries(row, l, l.cols), Nay)
    ensures other == other0 + Marked(RowEntries(row, l, l.cols), Absent)
  {
    yes, no, other := yes0, no0, other0;
    var c := 0;
    ghost var es: seq<(Mark, string)> := [];
    assert l.cols[..0] == [];
    while c < |l.cols|
      invariant 0 <= c <= |l.cols|
      invariant es == RowEntries(row, l, l.cols[..c])
      invariant Classified(es, yes0, no0, other0, yes, no, other)
    {
      var entry := Entry(row, l, l.cols[c]);
      RowEntriesStep(row, l, l.cols, c);
      if entry.Some? {
        var mark, name := entry.value.0, entry.value.1;
        ClassifiedStep(es, yes0, no0, other0, yes, no, other, mark, name);
        if mark == Yea {
          yes := yes + [name];
        } else if mark == Nay {
          no := no + [name];
        } else {
          other := other + [name];
        }
        es := es + [(mark, name)];
      }
      c := c + 1;
    }
    assert l.cols[..c] == l.cols;
  }

  // ---------------------------------------------------------------- the page

  /**
   * What `scrape_vote` records for the link `motion` to `url`: nothing for a budget
   * address, otherwise the roll call, or the error that aborts the scrape.
   */
  method ScrapeVote(motion: string, url: string, session: string, page: VotePage) returns (r: Result<Option<Vote>>)
    ensures r == VoteOf(motion, url, session, page)
  {
    var l := LayoutFor(url);
    if Contains(page.raw, BudgetMarker) {
      return Ok(None);
    }
    var counts :- PageCounts(page);
    var date :- TakenOnDate(page.takenOn, session);
    if page.tables == [] {
      return Err(IndexError("//table"));
    }
    var yes, no, other := ClassifyRoster(page.tables[0], l);
    r := Ok(Some(Vote(l.chamber, date, motion, Passes(counts.yes, counts.need), counts.yes, counts.no, counts.other,
                      yes, no, other, [url])));
  }

  /** The four counts of a roll call: yeas, nays, absent and not voting, and the number needed. */
  datatype Counts = Counts(yes: nat, no: nat, other: nat, need: nat)

  /** The four captions read in the source's order; the first without a digit aborts. */
  function PageCounts(page: VotePage): Result<Counts>
  {
    var yesCount :- Count(page.yea);
    var noCount :- Count(page.nay);
    var otherCount :- Count(page.absent);
    var needCount :- Count(page.necessary);
    Ok(Counts(yesCount, noCount, otherCount, needCount))
  }

  /** The record of a roll call whose counts, date and roster table have been read. */
  function RollCall(l: Layout, date: Date, motion: string, counts: Counts, table: seq<seq<string>>, url: string): Vote
  {
    var es := TableEntries(table, l);
    Vote(l.chamber, date, motion, Passes(counts.yes, counts.need), counts.yes, counts.no, counts.other,
         Marked(es, Yea), Marked(es, Nay), Marked(es, Absent), [url])
  }

  /** The roll call of a page, as a value. */
  function VoteOf(motion: string, url: string, session: string, page: VotePage): Result<Option<Vote>>
  {
    if Contains(page.raw, BudgetMarker) then Ok(None)
    else
      var counts :- PageCounts(page);
      var date :- TakenOnDate(page.takenOn, session);
      if page.tables == [] then Err(IndexError("//table"))
      else Ok(Some(RollCall(LayoutFor(url), date, motion, counts, page.tables[0], url)))
  }

  /** The counts are read exactly when every caption holds a number, and are those numbers. */
  lemma PageCountsSpec(page: VotePage)
    ensures PageCounts(page).Ok? <==>
              Count(page.yea).Ok? && Count(page.nay).Ok? && Count(page.absent).Ok? && Count(page.necessary).Ok?
    ensures PageCounts(page).Ok? ==>
              PageCounts(page).value ==
              Counts(Count(page.yea).value, Count(page.nay).value, Count(page.absent).value, Count(page.necessary).value)
    ensures Count(page.yea).Err? ==> PageCounts(page) == Err(Count(page.yea).error)
  {
  }

  /** A recorded roll call carries the page's four counts, and passed exactly when its yeas exceed the number needed. */
  lemma VoteOfCounts(motion: string, url: string, session: string, page: VotePage)
    requires VoteOf(motion, url, session, page).Ok? && VoteOf(motion, url, session, page).value.Some?
    ensures !Contains(page.raw, BudgetMarker) && PageCounts(page).Ok?
    ensures var v := VoteOf(motion, url, session, page).value.value;
      var c := PageCounts(page).value;
      && v.yesCount == c.yes && v.noCount == c.no && v.otherCount == c.other
      && (v.passed <==> v.yesCount > c.need)
  {
  }

  /** A recorded roll call names the chamber of its url, the date of its page, and its url as source. */
  lemma VoteOfOrigin(motion: string, url: string, session: string, page: VotePage)
    requires VoteOf(motion, url, session, page).Ok? && VoteOf(motion, url, session, page).value.Some?
    ensures var v := VoteOf(motion, url, session, page).value.value;
      && (v.chamber == Lower <==> Contains(url, HouseMarker))
      && TakenOnDate(page.takenOn, session) == Ok(v.date)
      && v.motion == motion && v.sources == [url]
  {
  }

  /** A recorded roll call lists every named roster entry of the page's first table exactly once. */
  lemma VoteOfRoster(motion: string, url: string, session: string, page: VotePage)
    requires VoteOf(motion, url, session, page).Ok? && VoteOf(motion, url, session, page).value.Some?
    ensures page.tables != []
    ensures var v := VoteOf(motion, url, session, page).value.value;
      multiset(v.yes) + multiset(v.no) + multiset(v.other) == multiset(Names(TableEntries(page.tables[0], LayoutFor(url))))
  {
    MarkedPartition(TableEntries(page.tables[0], LayoutFor(url)));
  }

  /** A page mentioning a budget address records no vote. */
  lemma BudgetAddressNoVote(motion: string, url: string, session: string, page: VotePage)
    requires Contains(page.raw, BudgetMarker)
    ensures VoteOf(motion, url, session, page) == Ok(None)
  {
  }

  /** Otherwise, a count caption without a digit aborts the scrape. */
  lemma MissingCountFails(motion: string, url: string, session: string, page: VotePage)
    requires !Contains(page.raw, BudgetMarker)
    requires forall k :: 0 <= k < |page.yea| ==> !IsDigit(page.yea[k])
    ensures VoteOf(motion, url, session, page) == Err(AttributeError(page.yea))
  {
    FirstDigitRunSpec(page.yea);
  }
}
