/**
 * The Connecticut scraper's small tables and names (openstates/ct/bills.py): bill types,
 * the committee-name table, member names on the roster pages, the introducer table,
 * and version file names.
 */
module CtTables {
  import opened Wrappers
  import opened Text
  import opened CtActions

  // ---------------------------------------------------------------- bill type

  datatype BillType = JointResolution | Resolution | PlainBill

  /** The type strings the bill records carry. */
  function BillTypeName(t: BillType): string {
    match t
    case JointResolution => "joint resolution"
    case Resolution => "resolution"
    case PlainBill => "bill"
  }

  /** `{'upper': 'S', 'lower': 'H'}[chamber]`: the first letter of the chamber's bill numbers. */
  function ChamberLetter(c: Chamber): char {
    if c == Upper then 'S' else 'H'
  }

  /** `re.match(r'^(S|H)J', id)` first, then `re.match(r'^(S|H)R', id)`, else a bill. */
  function BillTypeOf(id: string): BillType {
    if |id| >= 2 && (id[0] == 'S' || id[0] == 'H') && id[1] == 'J' then JointResolution
    else if |id| >= 2 && (id[0] == 'S' || id[0] == 'H') && id[1] == 'R' then Resolution
    else PlainBill
  }

  /** After a chamber letter, `J` makes a joint resolution, `R` a resolution, anything else a bill. */
  lemma BillTypeOfPrefix(x: char, y: char, rest: string)
    requires x == 'S' || x == 'H'
    ensures BillTypeOf([x, y] + rest) == if y == 'J' then JointResolution else if y == 'R' then Resolution else PlainBill
  {
  }

  /** An id that does not start with a chamber letter is a bill, whatever follows. */
  lemma BillTypeOfOther(id: string)
    requires id == [] || (id[0] != 'S' && id[0] != 'H')
    ensures BillTypeOf(id) == PlainBill
  {
  }

  // ---------------------------------------------------------------- committees

  /** One row of the committee file. */
  datatype CommitteeRow = CommitteeRow(code: string, name: string)

  const CommitteeSuffix := " Committee"

  /** `re.sub(r' Committee$', '', name)` on a stripped name, which has no final newline. */
  function DropCommitteeSuffix(s: string): string {
    if EndsWith(s, CommitteeSuffix) then s[..|s| - |CommitteeSuffix|] else s
  }

  /** The suffix is removed exactly when it is there, once, and nothing else changes. */
  lemma DropCommitteeSuffixSpec(s: string)
    ensures DropCommitteeSuffix(s) != s <==> EndsWith(s, CommitteeSuffix)
    ensures EndsWith(s, CommitteeSuffix) ==> DropCommitteeSuffix(s) + CommitteeSuffix == s
  {
    if EndsWith(s, CommitteeSuffix) {
      assert |DropCommitteeSuffix(s)| < |s|;
      assert s == s[..|s| - |CommitteeSuffix|] + s[|s| - |CommitteeSuffix|..];
    }
  }

  /** A name written with the suffix is read back without it. */
  lemma DropCommitteeSuffixRoundTrip(name: string)
    ensures DropCommitteeSuffix(name + CommitteeSuffix) == name
  {
    var s := name + CommitteeSuffix;
    assert s[|s| - |CommitteeSuffix|..] == CommitteeSuffix;
    assert s[..|s| - |CommitteeSuffix|] == name;
  }

  /** The code and the cleaned name a committee row stores. */
  function CommitteeKey(row: CommitteeRow): string {
    Strip(row.code)
  }

  function CommitteeValue(row: CommitteeRow): string {
    DropCommitteeSuffix(Strip(row.name))
  }

  /** `_committee_names` after storing the rows of the committee file in order. */
  function CommitteeTable(t: map<string, string>, rows: seq<CommitteeRow>): map<string, string>
  {
    if rows == [] then t
    else
      var row := rows[|rows| - 1];
      CommitteeTable(t, rows[..|rows| - 1])[CommitteeKey(row) := CommitteeValue(row)]
  }

  /** No row after `i` stores under the code of `k`. */
  predicate LastRowFor(rows: seq<CommitteeRow>, i: int, k: string) {
    0 <= i < |rows| && CommitteeKey(rows[i]) == k && forall j :: i < j < |rows| ==> CommitteeKey(rows[j]) != k
  }

  /** A code is in the table exactly when it was before or some row has it. */
  lemma {:induction false} CommitteeTableKeys(t: map<string, string>, rows: seq<CommitteeRow>, k: string)
    ensures k in CommitteeTable(t, rows) <==> k in t || exists i :: 0 <= i < |rows| && CommitteeKey(rows[i]) == k
  {
    if rows != [] {
      var init := rows[..|rows| - 1];
      CommitteeTableKeys(t, init, k);
      if exists i :: 0 <= i < |init| && CommitteeKey(init[i]) == k {
        var i :| 0 <= i < |init| && CommitteeKey(init[i]) == k;
        assert rows[i] == init[i];
      }
      if exists i :: 0 <= i < |rows| && CommitteeKey(rows[i]) == k {
        var i :| 0 <= i < |rows| && CommitteeKey(rows[i]) == k;
        if i < |init| {
          assert init[i] == rows[i];
        }
      }
    }
  }

  /** The last row with a code gives its name. */
  lemma {:induction false} CommitteeTableLastRow(t: map<string, string>, rows: seq<CommitteeRow>, i: int, k: string)
    requires LastRowFor(rows, i, k)
    ensures k in CommitteeTable(t, rows) && CommitteeTable(t, rows)[k] == CommitteeValue(rows[i])
  {
    var init := rows[..|rows| - 1];
    if i < |init| {
      assert LastRowFor(init, i, k) by {
        forall j | i < j < |init|
          ensures CommitteeKey(init[j]) != k
        {
          assert init[j] == rows[j];
        }
        assert init[i] == rows[i];
      }
      CommitteeTableLastRow(t, init, i, k);
      assert CommitteeKey(rows[|rows| - 1]) != k;
    }
  }

  /** Codes no row has keep their old names. */
  lemma {:induction false} CommitteeTableKeeps(t: map<string, string>, rows: seq<CommitteeRow>, k: string)
    requires k in t && forall i :: 0 <= i < |rows| ==> CommitteeKey(rows[i]) != k
    ensures k in CommitteeTable(t, rows) && CommitteeTable(t, rows)[k] == t[k]
  {
    if rows != [] {
      var init := rows[..|rows| - 1];
      assert forall i :: 0 <= i < |init| ==> init[i] == rows[i];
      CommitteeTableKeeps(t, init, k);
      assert CommitteeKey(rows[|rows| - 1]) != k;
    }
  }

  // ---------------------------------------------------------------- member names

  /**
   * `re.match(r"^S?\d+\s+-\s+(.*)$", name).group(1)`: a district number (with an `S` on
   * the Senate roster), a dash between whitespace, then the name. The number and the
   * whitespace runs cannot end early, `.` stops at a newline, and `$` also matches just
   * before a final newline.
   */
  function ParseMemberName(s: string): Option<string>
  {
    var i := if 0 < |s| && s[0] == 'S' then 1 else 0;
    var j := DigitsEnd(s, i);
    var k := SpacesEnd(s, j);
    if j == i || k == j || k == |s| || s[k] != '-' then None
    else
      var m := SpacesEnd(s, k + 1);
      if m == k + 1 then None
      else
        LineOf(s[m..])
  }

  /** `(.*)$`: the whole text when it holds no newline, the text before a final newline, or no match. */
  function LineOf(rest: string): Option<string>
  {
    var n := IndexOfChar(rest, '\n');
    if n == |rest| then Some(rest)
    else if n + 1 == |rest| then Some(rest[..n])
    else None
  }

  /**
   * The pattern matches when the digits run from `i` to `j`, whitespace to `k`, a dash, and
   * whitespace to `m`, every run maximal, and no newline follows; the name is the rest.
   */
  lemma ParseMemberNameRuns(s: string, i: nat, j: nat, k: nat, m: nat)
    requires i == (if 0 < |s| && s[0] == 'S' then 1 else 0)
    requires i < j < k && k + 1 < m <= |s| && AllDigits(s[i..j]) && SpacesOnly(s[j..k]) && s[k] == '-' && SpacesOnly(s[k + 1..m])
    requires m == |s| || !IsSpace(s[m])
    requires '\n' !in s[m..]
    ensures ParseMemberName(s) == Some(s[m..])
  {
    assert !IsSpace(s[k]) && !IsDigit(s[k]);
    assert IsSpace(s[j..k][0]);
    DigitsEndAt(s, i, j);
    SpacesEndAt(s, j, k);
    SpacesEndAt(s, k + 1, m);
    IndexOfCharAbsent(s[m..], '\n');
  }

  /** A roster cell "S12 - Jane Doe" (or "12 - Jane Doe") yields the name. */
  lemma ParseMemberNameReads(senate: bool, number: string, ws1: string, ws2: string, name: string)
    requires number != [] && AllDigits(number) && ws1 != [] && SpacesOnly(ws1) && ws2 != [] && SpacesOnly(ws2)
    requires '\n' !in name && (name == [] || !IsSpace(name[0]))
    ensures ParseMemberName((if senate then "S" else "") + number + ws1 + "-" + ws2 + name) == Some(name)
  {
    var lead: string := if senate then "S" else "";
    var s := lead + number + ws1 + "-" + ws2 + name;
    var i := |lead|;
    var j := i + |number|;
    var k := j + |ws1|;
    var m := k + 1 + |ws2|;
    assert |s| == m + |name|;
    assert s == lead + number + ws1 + "-" + (ws2 + name);
    assert s[m..] == name;
    assert s[k + 1..m] == ws2;
    assert s[k] == '-';
    assert s[..k] == lead + number + ws1;
    assert s[j..k] == ws1;
    assert s[i..j] == number;
    assert s[0] == if senate then 'S' else number[0];
    ParseMemberNameRuns(s, i, j, k, m);
  }

  /** A name read from a roster cell holds no newline and does not start with whitespace. */
  lemma ParseMemberNameSpec(s: string)
    ensures ParseMemberName(s).Some? ==>
              var n := ParseMemberName(s).value;
              '\n' !in n && (n == [] || !IsSpace(n[0])) && (EndsWith(s, n) || EndsWith(s, n + "\n"))
  {
    if ParseMemberName(s).Some? {
      var i := if 0 < |s| && s[0] == 'S' then 1 else 0;
      var j := DigitsEnd(s, i);
      var k := SpacesEnd(s, j);
      var m := SpacesEnd(s, k + 1);
      SpacesEndSpec(s, k + 1);
      assert ParseMemberName(s) == LineOf(s[m..]);
      LineOfAfter(s, m);
    }
  }

  /** The line after the whitespace that ends at `m` ends the text, bar a final newline, and does not start with whitespace. */
  lemma LineOfAfter(s: string, m: nat)
    requires m <= |s| && (m == |s| || !IsSpace(s[m])) && LineOf(s[m..]).Some?
    ensures var n := LineOf(s[m..]).value;
      '\n' !in n && (n == [] || !IsSpace(n[0])) && (EndsWith(s, n) || EndsWith(s, n + "\n"))
  {
    var rest := s[m..];
    LineOfSpec(rest);
    assert EndsWith(s, rest);
  }

  /** The line is the text itself or the text without its final newline, and holds no newline. */
  lemma LineOfSpec(rest: string)
    ensures LineOf(rest).Some? ==>
              var n := LineOf(rest).value;
              '\n' !in n && (rest == n || rest == n + "\n") && (n == [] || n[0] == rest[0])
  {
    var n := IndexOfChar(rest, '\n');
    if n + 1 == |rest| {
      assert rest == rest[..n] + "\n";
    }
  }

  /** A cell without a dash names no member. */
  lemma ParseMemberNameNeedsDash(s: string)
    requires '-' !in s
    ensures ParseMemberName(s) == None
  {
  }

  // ---------------------------------------------------------------- introducers

  /** `_introducers[id]` of a defaultdict of sets: no entry reads as the empty set. */
  function IntroducersOf(t: map<string, set<string>>, id: string): set<string> {
    if id in t then t[id] else {}
  }

  /** `_introducers[link.text.strip()].add(name)` for every bill link of a member's page, in order. */
  function AddIntroducer(t: map<string, set<string>>, name: string, ids: seq<string>): map<string, set<string>>
  {
    if ids == [] then t
    else
      var u := AddIntroducer(t, name, ids[..|ids| - 1]);
      var id := TextStrip(ids[|ids| - 1]);
      u[id := IntroducersOf(u, id) + {name}]
  }

  /** Some link of `ids` names bill `id`. */
  predicate Links(ids: seq<string>, id: string) {
    exists i :: 0 <= i < |ids| && TextStrip(ids[i]) == id
  }

  /** A bill gains the member exactly when one of the links names it; no one else is added. */
  lemma {:induction false} AddIntroducerSpec(t: map<string, set<string>>, name: string, ids: seq<string>, id: string)
    ensures IntroducersOf(AddIntroducer(t, name, ids), id) == IntroducersOf(t, id) + (if Links(ids, id) then {name} else {})
    ensures id in AddIntroducer(t, name, ids) <==> id in t || Links(ids, id)
  {
    if ids != [] {
      var init := ids[..|ids| - 1];
      AddIntroducerSpec(t, name, init, id);
      assert forall i :: 0 <= i < |init| ==> init[i] == ids[i];
      if Links(ids, id) && !Links(init, id) {
        assert TextStrip(ids[|ids| - 1]) == id;
      }
      if Links(init, id) {
        var i :| 0 <= i < |init| && TextStrip(init[i]) == id;
        assert TextStrip(ids[i]) == id;
      }
    }
  }

  /** The table is a set per bill: adding the same member's links again changes nothing. */
  lemma AddIntroducerIdempotent(t: map<string, set<string>>, name: string, ids: seq<string>)
    ensures AddIntroducer(AddIntroducer(t, name, ids), name, ids) == AddIntroducer(t, name, ids)
  {
    var once := AddIntroducer(t, name, ids);
    var twice := AddIntroducer(once, name, ids);
    forall id
      ensures (id in twice <==> id in once) && (id in once ==> twice[id] == once[id])
    {
      AddIntroducerSpec(t, name, ids, id);
      AddIntroducerSpec(once, name, ids, id);
    }
    assert twice.Keys == once.Keys;
  }

  // ---------------------------------------------------------------- version files

  /** The bill id and the version code a version file name carries. */
  datatype VersionName = VersionName(billId: string, version: string)

  /** The end of the run of capital letters that starts at `i`. */
  function UppersEnd(s: string, i: nat): (j: nat)
    requires i <= |s|
    ensures i <= j <= |s|
    decreases |s| - i
  {
    if i < |s| && IsUpper(s[i]) then UppersEnd(s, i + 1) else i
  }

  /** A maximal run of capitals from `i` to `j` is the one `UppersEnd` finds. */
  lemma {:induction false} UppersEndAt(s: string, i: nat, j: nat)
    requires i <= j <= |s| && (forall k :: i <= k < j ==> IsUpper(s[k])) && (j == |s| || !IsUpper(s[j]))
    ensures UppersEnd(s, i) == j
    decreases j - i
  {
    if i < j {
      UppersEndAt(s, i + 1, j);
    }
  }

  /**
   * `re.match(r'^\d{4,4}([A-Z]+-\d{5,5})-(R\d\d)', f)`, with group 1 stripped of its hyphen:
   * four digits, capitals, a hyphen, five digits, a hyphen, then `R` and two digits. The
   * capitals cannot end early, since a hyphen must follow them.
   */
  function ParseVersionName(f: string): Option<VersionName>
  {
    if |f| < 4 || !AllDigits(f[..4]) then None
    else
      var j := UppersEnd(f, 4);
      if j == 4 || j + 10 > |f| || f[j] != '-' || !AllDigits(f[j + 1..j + 6]) || f[j + 6] != '-'
         || f[j + 7] != 'R' || !AllDigits(f[j + 8..j + 10])
      then None
      else Some(VersionName(Replace(f[4..j + 6], "-", ""), f[j + 7..j + 10]))
  }

  /** "2011SB-00001-R00.htm" names bill SB00001, version R00. */
  lemma ParseVersionNameReads(year: string, letters: string, number: string, v: string, rest: string)
    requires |year| == 4 && AllDigits(year)
    requires letters != [] && forall k :: 0 <= k < |letters| ==> IsUpper(letters[k])
    requires |number| == 5 && AllDigits(number) && |v| == 2 && AllDigits(v)
    ensures ParseVersionName(year + letters + "-" + number + "-R" + v + rest) == Some(VersionName(letters + number, "R" + v))
  {
    var f := year + letters + "-" + number + "-R" + v + rest;
    var j := 4 + |letters|;
    assert f[..4] == year;
    assert f[4..j] == letters && f[j] == '-' && f[j + 1..j + 6] == number && f[j + 6] == '-';
    assert f[j + 7] == 'R' && f[j + 8..j + 10] == v && f[j + 7..j + 10] == "R" + v;
    UppersEndAt(f, 4, j);
    assert f[4..j + 6] == letters + ("-" + number);
    HyphenDropped(letters, number);
  }

  /** Group 1 without its hyphen: the capitals followed by the five digits. */
  lemma HyphenDropped(letters: string, number: string)
    requires (forall k :: 0 <= k < |letters| ==> IsUpper(letters[k])) && AllDigits(number)
    ensures Replace(letters + ("-" + number), "-", "") == letters + number
  {
    assert '-' !in letters by {
      assert forall k :: 0 <= k < |letters| ==> IsUpper(letters[k]);
    }
    assert '-' !in number by {
      assert forall k :: 0 <= k < |number| ==> IsDigit(number[k]);
    }
    ReplaceAppendFree(number, [], "-", "");
    assert number + [] == number;
    assert Replace(number, "-", "") == number;
    ReplaceAtStart("-", number, "");
    assert Replace("-" + number, "-", "") == "" + number == number;
    ReplaceAppendFree(letters, "-" + number, "-", "");
  }

  /** A parsed version code is `R` and two digits. */
  lemma ParseVersionNameSpec(f: string)
    ensures ParseVersionName(f).Some? ==>
              var v := ParseVersionName(f).value.version; |v| == 3 && v[0] == 'R' && AllDigits(v[1..])
  {
  }

  /** A name shorter than the shortest the pattern accepts is rejected. */
  lemma ParseVersionNameShort(f: string)
    requires |f| < 15
    ensures ParseVersionName(f) == None
  {
  }
}
