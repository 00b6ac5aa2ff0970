# Open States scrapers: a verified model of five scrapers

This project models, in Dafny, the decision logic of five Open States scrapers:

- the Connecticut bill scraper (`openstates/ct/bills.py`), which builds bills from the
  legislature's bill file, bill status pages, roll-call pages, history file and version
  listing, and keeps a committee table and an introducer table;
- the Oregon legislator list and detail pages (`scrapers_next/or/people.py`);
- the Kentucky member pages (`openstates/ky/legislators.py`);
- the Louisiana representative and senator pages (`openstates/la/legislators.py`);
- the New Jersey roster database (`openstates/nj/legislators.py`).

Fetched content is a parameter. CSV rows are records. A page is the list of the texts,
tails and links its selectors would return. A feed entry is the list of its property
texts. A DBF record is a map from field name to text. A Python exception that ends a
scrape becomes an `Err` of `Wrappers.Error`, naming the exception.

The modules follow the source:

- `Wrappers`: `Option`, `Result` and the exception kinds.
- `Text`: the Python string operations the scrapers use. These are `strip`, `find`,
  `in`, `replace`, `split`, `join`, `str(int(...))`, string ordering, and the digit runs
  that their regular expressions capture. There are three `strip`s:
  - a Python 2 `str` (a CSV or DBF field) loses the six ASCII whitespace characters (`Strip`);
  - a Python 3 `str` (Oregon) loses Unicode whitespace (`UStrip` with `IsWhite`);
  - under Python 2, lxml gives back a text as a `str` when it is ASCII and as `unicode`
    otherwise. A `unicode` loses Unicode whitespace as Unicode 5.2 defines it, the entity
    `&nbsp;` (U+00A0) among it (`TextStrip`, `StripOf`).
- `CtTables`: bill types, the committee table, roster-cell and version-filename patterns,
  and the introducer table.
- `CtActions`: the history rows of one bill. It covers grouping, the stable sort by
  `act_date`, text rewriting, action types and the acting-chamber machine.
- `CtVotes`: one roll-call page. It covers the column layout, the four counts, the pass
  rule, the `Taken on` date and the yea/nay/other roster.
- `CtBills`: the bill page, the bill file, the history, the versions and the rosters. The
  scraper object is `class CtBillScraper`, whose methods update its three tables in loops.
- `OrPeople`, `KyLegislators`, `LaLegislators`, `NjLegislators`: one module per
  legislator scraper.

Where the source updates state step by step, the model is imperative. Examples are the
loops of `scrape_bill_info`, `scrape_bill_history`, `scrape_vote`, `scrape_versions`,
`scrape_committee_names`, `scrape_introducer`, `get_child_text` and `scrape_member`, and
both `process_page` methods. Each such method is proved equal to a function of its input
(`ensures r == BillActions(...)`, `ensures (bills, failure) == InfoRun(...)`). Lemmas then
state what those functions mean. The Louisiana and New Jersey scrapers are plain
conditionals over strings, and are modelled as functions.

Regular expressions are written out as the backtracking match Python's `re` performs.
These follow the code as written:

- Connecticut's `.*Taken\s+on` is greedy and `.` stops at a newline. The date therefore
  comes from the LAST `Taken on` of the first line (`CtVotes.LastTakenOnSpec`).
- Kentucky's `item.replace('Annex:', '')` removes every occurrence of the prefix, not only
  the leading one.
- Louisiana's `district(\d+).pdf` leaves the dot unescaped. `district12pdf` therefore gives
  district `1` (`LaLegislators.RepDistrictUnescapedDot`).
- Louisiana's `District (\d+)` is searched for: the district comes from the first
  `District ` that digits follow, not from the first `District `.

Other behaviour the model keeps as written:

- A Connecticut link or table cell without text has `None` as its `.text`. Calling
  `strip()` or `replace()` on it raises AttributeError, which ends the scrape. A member's
  bill links added before such a link stay in the introducer table.
- A Connecticut roll-call name cell or a Kentucky contact text holding only `&nbsp;` is
  blank once stripped, so it is skipped (`CtVotes.NbspNameSkipped`, `KyLegislators.PieceBlank`).
- Louisiana's `a.text.strip().decode('utf8')` raises UnicodeEncodeError on a `unicode`
  name that keeps a character outside ASCII. The error ends the scrape
  (`LaLegislators.NameDecode`).
- New Jersey's full name always loses its last character, so a suffix is cut short. The
  saved record keeps that name (`NjLegislators.LegislatorOfName`). The intended name is
  `NjLegislators.FullName` (see Findings).

## Model

| member | source | states |
|---|---|---|
| Text.StripSpec | openstates/ct/bills.py:193 | `strip` removes only whitespace, and only at the two ends, leaving neither end blank |
| Text.StripPadded | openstates/ct/bills.py:264-265 | whitespace around an unpadded string is exactly what `strip` removes |
| Text.TextStripSpec | openstates/ct/bills.py:85 | the `strip` of an lxml text has no whitespace of its type at either end, and is the text less whitespace at its two ends |
| Text.TextStripBlank | openstates/ct/bills.py:146-150 | the `strip` of an lxml text is empty exactly when the text is ASCII whitespace, or Unicode whitespace with a character outside ASCII |
| Text.TextStripFixed | openstates/ky/legislators.py:106-108 | `strip` leaves an lxml text as it is exactly when the text has no whitespace of its type at either end |
| Text.TextStripPadded | openstates/la/legislators.py:81-83 | ASCII whitespace around a trimmed lxml text is exactly what `strip` removes, whether the whole is a `str` or a `unicode` |
| Text.FindSpec | openstates/ct/bills.py:211-212 | the position `find` returns is an occurrence, and no earlier occurrence lies after the start |
| Text.ContainsIff | openstates/ct/bills.py:231-235 | `pat in s` holds exactly when `pat` occurs at some position of `s` |
| Text.ReplaceAbsent | openstates/nj/legislators.py:32 | `replace` changes nothing in a string without an occurrence |
| Text.SplitJoin | openstates/ky/legislators.py:39-40 | splitting a join of pieces free of the separator gives the pieces back |
| Text.FirstDigitRunSpec | openstates/ct/bills.py:119 | `[^\d]*(\d+)` fails exactly on a digit-free text, and otherwise captures the first maximal digit run |
| Text.FirstDigitRunUnique | openstates/ct/bills.py:119 | at most one digit run can be the first one |
| Text.DecimalCanonical | openstates/nj/legislators.py:35 | `str(int(d)) == d` for every canonical digit string `d` |
| Text.DecimalLeadingZeros | openstates/nj/legislators.py:35 | leading zeros do not change the value `int()` reads |
| Text.LexLeTotal | openstates/ct/bills.py:185 | the string order of `act_date` keys is total, so every pair of rows is ordered |
| Text.LexLeTransitive | openstates/ct/bills.py:185 | the string order of `act_date` keys is transitive |
| CtTables.BillTypeOfPrefix | openstates/ct/bills.py:56-61 | after a chamber letter, `J` makes a joint resolution, `R` a resolution, anything else a bill |
| CtTables.BillTypeOfOther | openstates/ct/bills.py:56-61 | an id that does not start with `S` or `H` is a bill |
| CtTables.DropCommitteeSuffixSpec | openstates/ct/bills.py:266 | a trailing ` Committee` is removed exactly when present, once, and nothing else changes |
| CtTables.DropCommitteeSuffixRoundTrip | openstates/ct/bills.py:266 | a name written with the suffix is read back without it |
| CtTables.CommitteeTableKeys | openstates/ct/bills.py:263-267 | a code is in the table exactly when it was before or some row's stripped code is it |
| CtTables.CommitteeTableLastRow | openstates/ct/bills.py:263-267 | a code maps to the cleaned name of the last row with that code |
| CtTables.CommitteeTableKeeps | openstates/ct/bills.py:263-267 | codes no row has keep their earlier names |
| CtTables.ParseMemberNameRuns | openstates/ct/bills.py:279 | `^S?\d+\s+-\s+(.*)$` matches at maximal digit and whitespace runs, and captures the rest of the line |
| CtTables.ParseMemberNameReads | openstates/ct/bills.py:278-279 | a cell `S12 - Jane Doe` or `12 - Jane Doe` yields `Jane Doe` |
| CtTables.ParseMemberNameSpec | openstates/ct/bills.py:279 | a name read from a cell holds no newline and does not start with whitespace |
| CtTables.LineOfSpec | openstates/ct/bills.py:279 | `(.*)$` captures the text or the text less one final newline, and never a newline |
| CtTables.ParseMemberNameNeedsDash | openstates/ct/bills.py:279 | a cell without a dash names no member |
| CtTables.AddIntroducerSpec | openstates/ct/bills.py:287-289 | a bill gains the member exactly when one of the member's links names it, and no other member is added |
| CtTables.AddIntroducerIdempotent | openstates/ct/bills.py:289 | adding a member's links again leaves the sets unchanged |
| CtTables.ParseVersionNameReads | openstates/ct/bills.py:246-248 | `2011SB-00001-R00.htm` names bill `SB00001`, version `R00` |
| CtTables.ParseVersionNameSpec | openstates/ct/bills.py:246-248 | a parsed version code is `R` followed by two digits |
| CtTables.ParseVersionNameShort | openstates/ct/bills.py:246 | a name shorter than the pattern's minimum is rejected |
| CtActions.ParseActDateFormat | openstates/ct/bills.py:189-191 | a date written as four year digits, a month and a day of one or two digits each, whitespace and a time reads back as its year, month and day |
| CtActions.ParseActDateRejectsShort | openstates/ct/bills.py:189-191 | a text too short for a date and a time, or without a dash after its year, fails |
| CtActions.ParseActDateBounds | openstates/ct/bills.py:189-191 | a date that reads back has a month from 1 to 12 and a day from 1 to 31 |
| CtActions.RowsOf | openstates/ct/bills.py:176-180 | a bill's rows are rows of the file with that bill's number, and never more than the file holds |
| CtActions.RowsOfEmpty | openstates/ct/bills.py:176-180 | a bill has no rows exactly when no row of the file carries its number |
| CtActions.GroupRows | openstates/ct/bills.py:174-180 | exactly the known bills with rows get a group, and a group holds exactly that bill's rows, in file order |
| CtActions.SortByActDatePermutes | openstates/ct/bills.py:185 | the sorted rows are a permutation of the rows |
| CtActions.SortByActDateSorted | openstates/ct/bills.py:185 | the sorted rows are ordered by `act_date` |
| CtActions.SortByActDateStable | openstates/ct/bills.py:185 | rows with the same `act_date` keep their file order |
| CtActions.InsertByDateStable | openstates/ct/bills.py:185 | inserting a row puts it after the rows already there with its date |
| CtActions.UpToNewline | openstates/ct/bills.py:211-212 | `.*` captures a newline-free prefix that ends at a newline or at the end |
| CtActions.ExpandOlrOfaSpec | openstates/ct/bills.py:211-216 | a text without `REFERRED TO OLR, OFA ` is kept, and otherwise becomes the expansion plus the rest of the leftmost marker's line |
| CtActions.JointVerdictSpec | openstates/ct/bills.py:221-223 | a verdict is found exactly when the text opens with `Joint ` and one of the four spellings, and that spelling is reported |
| CtActions.ActionTypesSpec | openstates/ct/bills.py:194-226 | the type list is never empty; each rule adds its type exactly when it fires; `other` appears only when it stands alone |
| CtActions.RewriteReferredType | openstates/ct/bills.py:196-202 | a text ending in `COMM. ON` or `COMMITTEE ON` is typed `committee:referred`, and no other text is |
| CtActions.RewriteReferral | openstates/ct/bills.py:196-201 | a referral gets the committee's name appended, or the raw code when the code is unknown |
| CtActions.RewriteQualified | openstates/ct/bills.py:203-209 | without a referral, `qual1` is appended as ` (qual1 qual2)` or ` (qual1` when it names the session, and as ` qual1` otherwise |
| CtActions.RewriteKeepsDescription | openstates/ct/bills.py:193-209 | unless the OLR/OFA expansion fires, the action text starts with the stripped description |
| CtActions.TransferOf | openstates/ct/bills.py:231-235 | a text is a transfer to the Senate exactly when it holds `TRANSMITTED TO SENATE`, and to the House exactly when it holds `TRANS.TO HOUSE` but not the Senate marker |
| CtActions.ChamberAfterIsLastTransfer | openstates/ct/bills.py:228-235 | the acting chamber is the one named by the latest transfer, or the bill's own chamber |
| CtActions.ChamberAfterNoTransfer | openstates/ct/bills.py:186-188 | until the first transfer, the acting chamber is the bill's own chamber |
| CtActions.SenateMarkerWins | openstates/ct/bills.py:231-235 | after a text holding both markers, the Senate acts |
| CtActions.ActDatesAt | openstates/ct/bills.py:188-191 | the dates are read from the rows, position by position |
| CtActions.ActDatesFail | openstates/ct/bills.py:188-191 | reading the dates fails exactly when some row's date does not parse |
| CtActions.ActDatesPrefixErr | openstates/ct/bills.py:188-191 | the failure is that of the first unreadable row |
| CtActions.TaggedAt | openstates/ct/bills.py:186-235 | action k has row k's date, rewritten text and types, and the chamber set by the latest transfer among earlier actions |
| CtActions.BillActionsAt | openstates/ct/bills.py:188-229 | one action per sorted row, in order, each as `TaggedAt` describes |
| CtActions.BillActionsFail | openstates/ct/bills.py:188-191 | a bill's actions fail exactly when one of its rows has an unreadable date |
| CtActions.ActionsStep | openstates/ct/bills.py:188-235 | one more readable row adds one action and advances the acting chamber by that action's text |
| CtActions.BuildActions | openstates/ct/bills.py:186-235 | the loop over sorted rows, carrying `act_chamber`, builds exactly `BillActions` |
| CtVotes.LayoutFor | openstates/ct/bills.py:98-109 | a `VOTE/H` url gets the House columns `1, 5, 9, 13` and offsets `3, 0, 1`; any other url gets the Senate columns `1, 6` and offsets `4, 1, 2` |
| CtVotes.CountSpec | openstates/ct/bills.py:117-131 | a count is read exactly when its caption holds a digit, and it is the value of the first digit run |
| CtVotes.CountRoundTrip | openstates/ct/bills.py:119 | a number written after digit-free text, and not followed by a digit, is read back |
| CtVotes.TakenOnAtRuns | openstates/ct/bills.py:134 | `Taken\s+on\s+(\d+/\s?\d+)` matches at maximal runs and captures the date text |
| CtVotes.DateAtRuns | openstates/ct/bills.py:134 | the captured group is digits, a slash, at most one whitespace character, and digits |
| CtVotes.TakenOnAtReads | openstates/ct/bills.py:133-134 | a caption announcing `Taken on M/D` or `M/ D` yields that date text |
| CtVotes.LastMatchSome | openstates/ct/bills.py:134 | a greedy `.*` prefix selects the latest start where the rest matches |
| CtVotes.LastMatchNone | openstates/ct/bills.py:134 | the greedy search fails only when no start matches |
| CtVotes.LastTakenOnSpec | openstates/ct/bills.py:134 | the date comes from the latest `Taken on` of the first line, and there is none exactly when no start there matches |
| CtVotes.VoteDateFormat | openstates/ct/bills.py:135-137 | `M/D` or `M/ D` reads back as month M and day D of the session's year |
| CtVotes.GapRemoved | openstates/ct/bills.py:135 | removing spaces drops the one blank the pattern allows after the slash, and nothing else |
| CtVotes.MarkedStep | openstates/ct/bills.py:152-159 | recording one more entry adds its name to its mark's list, and to no other |
| CtVotes.MarkedPartition | openstates/ct/bills.py:152-159 | every recorded entry lands in exactly one of the yea, nay and other lists |
| CtVotes.EntrySpec | openstates/ct/bills.py:146-159 | a group is recorded exactly when its name cell is not blank (ASCII whitespace, or Unicode whitespace such as `&nbsp;` in a `unicode`), under its stripped name; it is a yea iff the yes cell holds `Y`, else a nay iff the no cell holds `N`, else other |
| CtVotes.BlankRowSkipped | openstates/ct/bills.py:149-150 | a row whose name cells are all blank, in that sense, contributes nothing |
| CtVotes.NbspNameSkipped | openstates/ct/bills.py:146-150 | a name cell holding only `&nbsp;` is blank, so its group is skipped |
| CtVotes.ClassifyRoster | openstates/ct/bills.py:143-159 | the nested loop over rows and column groups yields the yea, nay and other names of the table's entries, in table order |
| CtVotes.ClassifyRow | openstates/ct/bills.py:145-159 | the inner loop extends the three lists by one row's entries |
| CtVotes.ScrapeVote | openstates/ct/bills.py:97-161 | the method computes exactly the roll call `VoteOf` describes |
| CtVotes.PageCountsSpec | openstates/ct/bills.py:117-131 | the counts are read exactly when every caption holds a number, and they are those numbers; the first missing one is the error |
| CtVotes.VoteOfCounts | openstates/ct/bills.py:117-140 | a recorded roll call carries the four counts, and it passed exactly when the yeas exceed the number needed |
| CtVotes.VoteOfOrigin | openstates/ct/bills.py:98-141 | a recorded roll call is House exactly when its url holds `VOTE/H`, carries the page's date and motion, and has its url as its only source |
| CtVotes.VoteOfRoster | openstates/ct/bills.py:143-159 | the yea, nay and other names are, as a multiset, exactly the named entries of the first table |
| CtVotes.BudgetAddressNoVote | openstates/ct/bills.py:112-113 | a page mentioning `BUDGET ADDRESS` records no vote |
| CtVotes.MissingCountFails | openstates/ct/bills.py:117-119 | otherwise, a yea caption without a digit aborts the scrape |
| CtBills.Documents | openstates/ct/bills.py:84-88 | the documents are read exactly when every link has text: then one per link, in order, named by its stripped text; otherwise AttributeError |
| CtBills.Subjects | openstates/ct/bills.py:166-167 | the subjects are read exactly when every cell has text: then one per cell, in order, with `&nbsp` removed and stripped; otherwise AttributeError |
| CtBills.PageVotesFail | openstates/ct/bills.py:90-92 | the roll calls are read exactly when every roll-call link's page reads |
| CtBills.PageVotesCount | openstates/ct/bills.py:90-92 | at most one roll call per link, and exactly one per link when every page records one |
| CtBills.ReaderForRecords | openstates/ct/bills.py:112-113 | a roll-call page that is not a budget address records its vote or fails |
| CtBills.ScrapeVotes | openstates/ct/bills.py:90-92 | the loop over roll-call links computes exactly `PageVotes` |
| CtBills.AddDocuments | openstates/ct/bills.py:84-88 | the loop fails exactly when `Documents` does, and otherwise appends exactly its documents, in order |
| CtBills.WithPageKeeps | openstates/ct/bills.py:74-95 | the page changes only sources, documents, votes and subjects: it adds the status url as a source, appends the fiscal notes, amendments and roll calls, and sets the subjects |
| CtBills.ScrapeBillPage | openstates/ct/bills.py:74-95 | the method computes exactly `WithPage`; a page without a `Similar` link fails with an IndexError |
| CtBills.ScrapeVoteLink | openstates/ct/bills.py:90-92 | one roll-call link is read as `LinkVote` says; a link without text fails |
| CtBills.InfoRunKeys | openstates/ct/bills.py:51-72 | a file read through has a number on every row, and files exactly the earlier bills and those of the rows of the chamber |
| CtBills.InfoRunLastRow | openstates/ct/bills.py:72 | the bill filed under a number is the one made from the last row with that number |
| CtBills.InfoStepOtherChamber | openstates/ct/bills.py:53-54 | a row of the other chamber changes nothing |
| CtBills.BillFromRowFiled | openstates/ct/bills.py:56-72 | a bill made from a row has the row's number, title and prefix type, the bill file and status page as sources, and its introducers as sponsors |
| CtBills.MakerForFiled | openstates/ct/bills.py:56-72 | every bill the scrape makes from a row of its chamber is filed as `BillFromRowFiled` says |
| CtBills.InfoRunFiled | openstates/ct/bills.py:51-72 | reading the bill file keeps every bill well filed, whether it is read through or stops early |
| CtBills.WithHistoryNoRows | openstates/ct/bills.py:176-183 | a bill without history rows is left as it is |
| CtBills.WithHistoryKeeps | openstates/ct/bills.py:182-229 | the history changes only a bill's actions, adding exactly one per history row of the bill |
| CtBills.VersionsRunKeeps | openstates/ct/bills.py:245-256 | the listing adds no bills and changes only their versions |
| CtBills.VersionsRunSpec | openstates/ct/bills.py:245-256 | a listing read through gives each bill the versions of its own files, in listing order |
| CtBills.VersionsRunFail | openstates/ct/bills.py:246-248 | the listing fails exactly when one of its names does not match the pattern |
| CtBills.RosterRunSpec | openstates/ct/bills.py:277-289 | a roster read through adds a member to a bill exactly when the member's page links the bill |
| CtBills.RosterRunRead | openstates/ct/bills.py:277-289 | a roster read through names a member in every cell and has text on every bill link |
| CtBills.KnownTextsSpec | openstates/ct/bills.py:287-289 | the stripped texts are those of the links before the first link without text |
| CtBills.IntroduceAdds | openstates/ct/bills.py:283-289 | a member's page adds the member to exactly the bills it links |
| CtBills.CtBillScraper.constructor | openstates/ct/bills.py:23-24 | the committee, introducer and bill tables start empty |
| CtBills.CtBillScraper.Init | openstates/ct/bills.py:26-30 | committee names, then the Senate roster, then the House roster only when the Senate roster was read through |
| CtBills.CtBillScraper.ScrapeCommitteeNames | openstates/ct/bills.py:258-267 | the committee table becomes `CommitteeTable` of the rows, and nothing else changes |
| CtBills.CtBillScraper.ScrapeIntroducers | openstates/ct/bills.py:269-281 | the introducer table and failure become `RosterRun` of the roster, and nothing else changes |
| CtBills.CtBillScraper.ScrapeIntroducer | openstates/ct/bills.py:283-289 | the introducer table becomes `AddIntroducer` of the texts before the first link without text, which raises AttributeError; nothing else changes |
| CtBills.CtBillScraper.Scrape | openstates/ct/bills.py:32-42 | a session other than `2011` raises NoDataForPeriod; otherwise the scrape succeeds exactly when `ScrapedBills` (bill file, then each bill's history, then the version listing) does, and returns its table: the chamber's bills, each well filed |
| CtBills.ScrapedBillsSpec | openstates/ct/bills.py:32-42 | a successful scrape keeps exactly the bill file's bills; each gets the actions of its own history rows, and its own files as versions after its earlier ones |
| CtBills.ScrapedBillsFiled | openstates/ct/bills.py:32-72 | a successful scrape holds exactly the requested chamber's bills of the file, each filed under its number for the session with its introducers as sponsors |
| CtBills.CtBillScraper.ScrapeBillInfo | openstates/ct/bills.py:44-72 | the bill table and failure become `InfoRun` of the file, and the other tables are unchanged |
| CtBills.CtBillScraper.ScrapeInfoRow | openstates/ct/bills.py:52-72 | one row updates the bill table as `InfoStep` says |
| CtBills.CtBillScraper.ScrapeBillHistory | openstates/ct/bills.py:169-235 | the bills stay the same set; on success each bill is `WithHistory` of the rows; a failure is the failure of some bill's history |
| CtBills.CtBillScraper.ScrapeGroups | openstates/ct/bills.py:182-235 | each grouped bill gets its group's actions; bills without a group are unchanged; a failure comes from some group |
| CtBills.CtBillScraper.ScrapeBillRows | openstates/ct/bills.py:183-229 | one bill's actions are extended by its sorted rows, or the table is unchanged and the date error is returned |
| CtBills.CtBillScraper.ScrapeVersions | openstates/ct/bills.py:237-256 | the bill table and failure become `VersionsRun` of the listing, and the other tables are unchanged |
| CtBills.InfoRunPrefix | openstates/ct/bills.py:51-72 | once a row fails, later rows change nothing |
| CtBills.VersionsRunPrefix | openstates/ct/bills.py:245-256 | once a file name fails, later files change nothing |
| CtBills.RosterRunPrefix | openstates/ct/bills.py:277-281 | once a roster cell fails, later cells change nothing |
| Text.LStripSpec | scrapers_next/or/people.py:67 | `lstrip` keeps a suffix, removes only Unicode whitespace, and leaves none in front |
| Text.RStripSpec | scrapers_next/or/people.py:67 | `rstrip` keeps a prefix, removes only Unicode whitespace, and leaves none at the end |
| Text.UStripSpec | scrapers_next/or/people.py:67 | `strip` result is unpadded and is the input less whitespace at the two ends |
| Text.UStripPadded | scrapers_next/or/people.py:67 | whitespace around an unpadded string is exactly what `strip` removes |
| OrPeople.ChamberOfPadded | scrapers_next/or/people.py:69-73 | a code that strips to `H` gives `lower`, and one that strips to `S` gives `upper` |
| OrPeople.ChamberOfOther | scrapers_next/or/people.py:69-73 | any other chamber code is passed through unchanged, padding included |
| OrPeople.PartyOfPadded | scrapers_next/or/people.py:75-77 | a party that strips to `Democrat` gives `Democratic` |
| OrPeople.PartyOfOther | scrapers_next/or/people.py:75-77 | any other party is passed through unchanged, padding included |
| OrPeople.EntryStepSpec | scrapers_next/or/people.py:63-117 | an entry with fewer than twelve properties fails; otherwise the name is the stripped first and last names joined by one space, the codes are mapped, the phone is set iff non-empty, the title is an extra iff not `Senator` or `Representative`, the sources are the feed and the homepage, and only `Daniel Bonham` is emitted without a detail page |
| OrPeople.ListRunOk | scrapers_next/or/people.py:62-117 | the list is read through exactly when every entry reads, and then yields one result per entry, in order |
| OrPeople.ListRunFail | scrapers_next/or/people.py:62-117 | a failing list stops at the first failing entry, keeping the results before it |
| OrPeople.LegListSkipsHeader | scrapers_next/or/people.py:61 | the first four children of the feed root are skipped |
| OrPeople.ProcessList | scrapers_next/or/people.py:60-117 | the loop over the feed computes exactly `LegList` |
| OrPeople.ScrapeEntry | scrapers_next/or/people.py:63-117 | one entry is read as `EntryStep` says |
| OrPeople.ReadPerson | scrapers_next/or/people.py:65-110 | the person built field by field is `PersonOf` of the properties |
| OrPeople.ReadNameAndCapitol | scrapers_next/or/people.py:65-99 | the first steps set name, chamber, party, district, the feed source, the given and family names and the capitol office |
| OrPeople.ReadTitleAndLinks | scrapers_next/or/people.py:101-110 | the later steps add the title extra, the email, the homepage link and the homepage source |
| OrPeople.PhoneLabelFound | scrapers_next/or/people.py:25 | a text holding `District`, one whitespace character and `Phone:` is a phone label |
| OrPeople.AddressLabelFound | scrapers_next/or/people.py:34-36 | `District`, a blank or `\xa0`, optionally `Mailing`, at most one blank and `Address:` make an address label |
| OrPeople.TagStepKeeps | scrapers_next/or/people.py:24-48 | a district tag changes only the district office |
| OrPeople.TagsRunKeeps | scrapers_next/or/people.py:24-48 | the tags together change only the district office |
| OrPeople.DetailOfSpec | scrapers_next/or/people.py:13-52 | the detail page fails without exactly one portrait, unless the person is `Rob Wagner`; it sets the image (Wagner's fixed image or the portrait) and the district office; no district tags leave the office unchanged |
| OrPeople.PhoneLabelVoice | scrapers_next/or/people.py:25-33 | a phone label sets the voice to its stripped tail, or else to the next sibling's text, or the one after that for `Boomer Wright` |
| OrPeople.AddressLabelAddress | scrapers_next/or/people.py:34-40 | an address label sets the address to its tail unless missing or blank, else to the next sibling's text, and fails without one |
| OrPeople.ProcessDetail | scrapers_next/or/people.py:10-52 | the method computes exactly `DetailOf` |
| OrPeople.ScrapeTags | scrapers_next/or/people.py:24-48 | the loop over district tags computes exactly `TagsRun` |
| OrPeople.ScrapeTag | scrapers_next/or/people.py:25-48 | one tag updates the person as `TagStep` says |
| OrPeople.TagsRunPrefix | scrapers_next/or/people.py:24-48 | once a tag fails, later tags change nothing |
| KyLegislators.RemoveParens | openstates/ky/legislators.py:43 | removing parentheses never lengthens the text |
| KyLegislators.RemoveParensSpec | openstates/ky/legislators.py:43 | the result holds no parenthesis, and a text without one is unchanged |
| KyLegislators.RemoveParensAround | openstates/ky/legislators.py:43 | `(x)` reads as `x` with its parentheses removed |
| KyLegislators.RemoveParensAppend | openstates/ky/legislators.py:43 | removal distributes over concatenation |
| KyLegislators.PartyNameFrom | openstates/ky/legislators.py:44-49 | each party word comes from its code or from the word itself, and any other word is kept |
| KyLegislators.HeadingRead | openstates/ky/legislators.py:39-51 | a heading `Title First Middle Last (P)` gives the inner words as the name and the mapped code `P` as the party |
| KyLegislators.BoldsSpec | openstates/ky/legislators.py:53-65 | the bold items add every non-district item as a role, in order, and set the district from the last district item |
| KyLegislators.ChildTextClean | openstates/ky/legislators.py:102-112 | at most two strings per descendant, each non-empty and with no whitespace of its type at either end |
| KyLegislators.PieceBlank | openstates/ky/legislators.py:106-111 | a text or tail is dropped exactly when it is blank: ASCII whitespace, or Unicode whitespace such as `&nbsp;` in a `unicode` |
| KyLegislators.PieceClean | openstates/ky/legislators.py:106-108 | a non-empty text with no whitespace of its type at either end is kept as it is |
| KyLegislators.GetChildText | openstates/ky/legislators.py:102-112 | the loop over descendants computes exactly `ChildText` |
| KyLegislators.RowsSpec | openstates/ky/legislators.py:70-83 | the office address and phone come from the last row giving each |
| KyLegislators.FirstAnnexSpec | openstates/ky/legislators.py:78-83 | no phone exactly when no entry starts with `Annex:`, and otherwise the phone comes from the first such entry |
| KyLegislators.AnnexNumber | openstates/ky/legislators.py:81-82 | `Annex: 555` gives the stripped number |
| KyLegislators.RolesOf | openstates/ky/legislators.py:96-98 | one role per role name, in order, with the year and chamber |
| KyLegislators.MemberOfSpec | openstates/ky/legislators.py:30-98 | a page without a district item fails with KeyError `district`, and one with a district but no address row with KeyError `office_address`; a saved member has the member url as only source, the last district, address and phone, the heading's name and party, and its roles in order |
| KyLegislators.ScrapeMember | openstates/ky/legislators.py:30-98 | the method computes exactly `MemberOf` |
| KyLegislators.ScrapeBolds | openstates/ky/legislators.py:53-65 | the loop over bold items computes exactly `Bolds` |
| KyLegislators.AddRoles | openstates/ky/legislators.py:96-98 | the loop computes exactly `RolesOf` |
| KyLegislators.ScrapeContactRows | openstates/ky/legislators.py:70-83 | the loop over contact rows computes exactly `Rows` |
| KyLegislators.ScrapeContactRow | openstates/ky/legislators.py:71-83 | one contact row updates the member as `RowStep` says |
| KyLegislators.AnnexPhone | openstates/ky/legislators.py:78-83 | the loop with `break` computes exactly `FirstAnnex` |
| KyLegislators.ScrapeRunSpec | openstates/ky/legislators.py:22-23 | a scrape read through saves one legislator per link, in order, and reads through exactly when every page reads |
| KyLegislators.ScrapeRunPrefix | openstates/ky/legislators.py:22-23 | once a member page fails, later links change nothing |
| KyLegislators.Scrape | openstates/ky/legislators.py:12-23 | the scrape of a chamber is `ScrapeRun` over the links of that chamber's list page |
| LaLegislators.RepNameJr | openstates/la/legislators.py:43-45 | `Last, Jr., First` becomes `Last First, Jr.` |
| LaLegislators.RepNameThird | openstates/la/legislators.py:46-48 | `Last, III, First` becomes `Last First, III` |
| LaLegislators.FranklinHasNoInfix | openstates/la/legislators.py:41-48 | the Franklin special case is exclusive of the two suffix rules |
| LaLegislators.RepNameNoJr | openstates/la/legislators.py:43-48 | a `, III, ` name does not reach the `, Jr., ` branch |
| LaLegislators.RepNamePlain | openstates/la/legislators.py:41-48 | a name without a comma is kept |
| LaLegislators.SearchRepDistrictDigits | openstates/la/legislators.py:55 | a captured district is a non-empty digit run |
| LaLegislators.SearchSkipsPrefix | openstates/la/legislators.py:55 | the search starts at the first `district` |
| LaLegislators.RepDistrictHref | openstates/la/legislators.py:53-55 | a link `...district12.pdf...` gives district `12` |
| LaLegislators.RepDistrictUnescapedDot | openstates/la/legislators.py:55 | the unescaped dot lets `district12pdf` give district `1` |
| LaLegislators.RepParty | openstates/la/legislators.py:57-64 | the party is never empty |
| LaLegislators.RepPartySpec | openstates/la/legislators.py:57-64 | each party is chosen exactly when its mark is present and no earlier mark is; `Other` exactly when none is |
| LaLegislators.RepOfSpec | openstates/la/legislators.py:39-69 | a page without a district link fails; a saved representative is `lower`, has the page as only source, a digit-run district from the first district link, the rewritten name and the page's party |
| LaLegislators.SenateSkipsPrefix | openstates/la/legislators.py:78 | the search starts at the first `District ` |
| LaLegislators.SenateDistrictHeading | openstates/la/legislators.py:75-78 | `Senator ... District 12 ...` gives district `12` |
| LaLegislators.SearchSenateDistrictDigits | openstates/la/legislators.py:78 | a captured district is a non-empty digit run |
| LaLegislators.SenatePartySpec | openstates/la/legislators.py:80-90 | a missing label gives `N/A`; `No Party (Independent)` gives `Independent`; `Democrat` gives `Democratic`; other stripped values are kept |
| LaLegislators.SenatorOfSpec | openstates/la/legislators.py:71-95 | a heading without a district fails; a saved senator is `upper`, has the page as only source, a digit-run district, the listed name and the label's party |
| LaLegislators.ScrapeTermCheck | openstates/la/legislators.py:14-15 | a term other than the latest raises NoDataForPeriod before anything is scraped |
| LaLegislators.RunFromAppend | openstates/la/legislators.py:27-37 | the scrape of two link lists is the scrape of the first continued by the second |
| LaLegislators.RunFromWarnings | openstates/la/legislators.py:35-37 | warnings never change what is saved or what fails |
| LaLegislators.HttpErrorIsolated | openstates/la/legislators.py:30-37 | a page that raises an HTTP error changes nothing saved and no failure, as if its link were absent |
| LaLegislators.NameDecode | openstates/la/legislators.py:28 | a link's step ends the scrape with UnicodeEncodeError exactly when its stripped name keeps a character outside ASCII |
| LaLegislators.RunFromSaved | openstates/la/legislators.py:27-37 | the scrape keeps earlier records and saves only records of the term and chamber with their page as source |
| LaLegislators.ScrapeSaved | openstates/la/legislators.py:13-37 | every saved record has the term, the chamber, a digit-run district and its page as source |
| NjLegislators.SpacedReplaced | openstates/nj/legislators.py:31-32 | for one-word parts, collapsing double spaces leaves the parts singly spaced, with an empty middle dropped |
| NjLegislators.FullNameShape | openstates/nj/legislators.py:31-33 | the name is first, middle if any, last, and suffix if any, separated by single spaces |
| NjLegislators.FullNameAsWrittenSpec | openstates/nj/legislators.py:31-33 | as written, the name is correct without a suffix, and loses the suffix's last letter otherwise |
| NjLegislators.FullNameAsWrittenSuffix | openstates/nj/legislators.py:31-33 | as written, `A`, ``, `B`, `Jr` gives `A B J`, where `A B Jr` is meant |
| NjLegislators.FullNameSplit | openstates/nj/legislators.py:31-33 | splitting the name at spaces gives back exactly its non-empty parts |
| NjLegislators.CodeTablesFrom | openstates/nj/legislators.py:36-47 | each party and chamber name comes from its code or from the name itself, and any other value is kept |
| NjLegislators.DistrictCanonical | openstates/nj/legislators.py:35 | a district read is a canonical decimal integer |
| NjLegislators.DistrictUnsigned | openstates/nj/legislators.py:35 | a digit field reads as `str(int(...))` of its digits |
| NjLegislators.DistrictNegative | openstates/nj/legislators.py:35 | a negative field keeps its sign |
| NjLegislators.DistrictIdempotent | openstates/nj/legislators.py:35 | reading a district read again changes nothing |
| NjLegislators.DistrictPadded | openstates/nj/legislators.py:35 | blanks and leading zeros around a canonical number are dropped |
| NjLegislators.LegislatorOfSaved | openstates/nj/legislators.py:27-68 | a record is saved exactly when it has every required field and a readable district |
| NjLegislators.LegislatorOfFields | openstates/nj/legislators.py:27-69 | a saved legislator has the name as the source builds it (`FullNameAsWritten`), the record's district, the mapped codes, the email or `''`, the term, and the roster file as its source |
| NjLegislators.LegislatorOfName | openstates/nj/legislators.py:31-33 | for one-word name parts, the saved name is the intended one exactly when there is no suffix, and otherwise lacks its last letter |
| NjLegislators.RosterRunSpec | openstates/nj/legislators.py:26-70 | a roster read through saves one legislator per record, in order, and reads through exactly when every record reads |
| NjLegislators.RosterRunSources | openstates/nj/legislators.py:62-69 | every saved legislator has the roster file as its only source and the scraped term |
| NjLegislators.Year | openstates/nj/legislators.py:16 | the year is the first four characters of the term, or the whole term when it is shorter |
| NjLegislators.ScrapeChambers | openstates/nj/legislators.py:15-20 | `upper` and `lower` run the same roster scrape, and any other chamber saves nothing |

## Left out

- Fetching is not modelled: `urlopen`, FTP listings, `get_dbf`, the spatula sources, `make_links_absolute`. Every fetched page, file or listing is a parameter of the model.
- Parsing is not modelled: HTML/XML selection (lxml, XPath, CSS), `csv.DictReader`, dbfpy and `parse_directory_listing`. Their results are records, lists of texts and lists of tags.
- Saving is not modelled: `save_bill` and `save_legislator`. The billy and openstates record classes (`Bill`, `Vote`, `Legislator`, `ScrapePerson`) are datatypes holding the fields set on them. Their internals, such as the default role a `Legislator` gets, are not modelled.
- Dates are `(year, month, day)` triples read from the digits. There is no calendar validation and no time of day, so `strptime` rejecting a day such as February 30 is not modelled.
- CtActions.ParseActDate: only the whitespace that starts the time of day is checked; the `%H:%M:%S` fields are not read. `%d` written as a space and one digit (` 5`) is not accepted.
- Text.TextStrip: whether a value is a `unicode` is read from its own characters. A `unicode` that holds only ASCII is therefore stripped as a `str`. Such a value is a word split off a longer Kentucky annex entry that was stripped before. The two strips differ only on the control characters U+001C to U+001F.
- A CSV row lacking a column (a KeyError on `row['bill_num']`) is not modelled. Rows always have their columns.
- The sponsors of a bill are a set of names, so the order in which `_introducers[bill_id]` is iterated (line 69) is not modelled. Reading the defaultdict at line 69 also inserts an empty set for a bill without introducers. That insertion changes no lookup, and it is not modelled.
- CtBills.CtBillScraper.ScrapeGroups: the groups are visited in an arbitrary order, as `action_rows.iteritems()` visits them. The model proves the result for every order, so the contract does not fix which failure is reported when several bills fail.
- CtBills.CtBillScraper.ScrapeBillRows: when a row's date fails, the source has already appended the actions of the earlier rows to the bill in place. The model leaves the bill unchanged. The exception ends the scrape, so no saved bill differs.
- CtBills.CtBillScraper.ScrapeBillHistory groups the rows in a method, but sorts each group with `SortByActDate`, a function on values. The in-place `actions.sort` and the aliasing of the lists in `action_rows` are not modelled.
- The class attributes `_committee_names` and `_introducers` are shared by every scraper instance in the source. The model gives each `CtBillScraper` its own tables, starting empty.
- CtBills.CtBillScraper.Scrape: the saving loop over `self.bills.itervalues()` is not modelled. The method returns the bill table.
- `scrape_subjects` follows the first `Similar` link. The model takes that page's subject cells as part of the bill page.
- Oregon text nodes whose text is `None` (lxml) are modelled as empty strings. `first_name.strip()` then cannot raise AttributeError.
- OrPeople.EntryStep: a short entry is a failure; there is no separate IndexError per position.
- Kentucky `scrape_office_info` (lines 25-28) is never called, and is not modelled.
- Kentucky member links are text. A link with no `href` attribute is not modelled.
- LaLegislators.SearchRepDistrict: `.` in the href pattern is modelled as any character but a newline. Hrefs are taken to be single-line.
- New Jersey `int()` of a unicode string accepting non-ASCII digits (Arabic-Indic or full-width digits) is not modelled. The district is read from ASCII digits with an optional sign and surrounding whitespace.
- Texts are taken as lxml gives them back, with entities such as `&nbsp;` already decoded to U+00A0. The decoding is not modelled. Connecticut's removal of `&nbsp` from subjects is the literal text replacement in the source.

## Findings

| source | as written | input that shows it | evidently intended | confidence | as-written member | corrected member |
|---|---|---|---|---|---|---|
| openstates/nj/legislators.py:31-33 | the name joins first, middle, last and suffix with single spaces, collapses double spaces, then always drops the last character | first `A`, middle empty, last `B`, suffix `Jr` gives `A B J` | drop only the trailing space left by an empty suffix, giving `A B Jr` | not executed | NjLegislators.FullNameAsWrittenSuffix | NjLegislators.FullNameShape |
