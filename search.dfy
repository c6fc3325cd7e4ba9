/**
 * CSMTools::Search, the editor's global search: the kinds of search and the
 * parameter each accepts, the columns of a table it looks at, and the
 * messages it reports for the cells of a row. Tables, their cells and the
 * message sink are plain values here; Qt's case folding and the regular
 * expression engine are parameters.
 */
module Search {
  import opened Wrappers
  import opened Decimal

  datatype SearchType = Text | TextRegEx | Id | IdRegEx | RecordState | NoType

  /** The kind of parameter a constructor takes. */
  datatype ParamKind = StringParam | RegExpParam | IntParam

  /** The search types each constructor accepts. */
  predicate Accepts(kind: ParamKind, t: SearchType) {
    match kind
    case StringParam => t == Text || t == Id
    case RegExpParam => t == TextRegEx || t == IdRegEx
    case IntParam => t == RecordState
  }

  /** The std::logic_error message of each constructor. */
  function ParameterError(kind: ParamKind): string {
    match kind
    case StringParam => "Invalid search parameter (string)"
    case RegExpParam => "Invalid search parameter (RegExp)"
    case IntParam => "invalid search parameter (int)"
  }

  /** Every search type but None is accepted by exactly one constructor; None only by the default one. */
  lemma OneConstructorPerType(t: SearchType)
    ensures t == NoType <==> forall k: ParamKind :: !Accepts(k, t)
    ensures forall k1: ParamKind, k2: ParamKind :: Accepts(k1, t) && Accepts(k2, t) ==> k1 == k2
  {
    if t != NoType {
      var k := match t
        case Text => StringParam case Id => StringParam
        case TextRegEx => RegExpParam case IdRegEx => RegExpParam
        case RecordState => IntParam;
      assert Accepts(k, t);
    }
  }

  /* ---------------- tables ---------------- */

  /**
   * What configure reads from a column's header: its column id and whether
   * its display kind counts as text, id, script (ColumnBase::isText, isId,
   * isScript) or is Display_RecordState.
   */
  datatype ColumnInfo = ColumnInfo(columnId: int, isText: bool, isId: bool, isScript: bool, isRecordState: bool)

  /** A cell's data read as a string and as an int (QVariant::toString, toInt). */
  datatype Cell = Cell(text: string, number: int)

  /** A table: its columns, its rows, and the columns findColumnIndex gives for the id and the record type. */
  datatype Table = Table(columns: seq<ColumnInfo>, rows: seq<seq<Cell>>, idColumn: int, typeColumn: int)

  /** model->data(model->index(row, column)): an index outside the table is invalid and reads as empty. */
  function CellAt(table: Table, row: int, column: int): Cell {
    if 0 <= row < |table.rows| && 0 <= column < |table.rows[row]| then table.rows[row][column] else Cell("", 0)
  }

  /** Whether a search of type `t` looks at a column. */
  predicate Consider(t: SearchType, c: ColumnInfo) {
    match t
    case Text => c.isText || c.isScript
    case TextRegEx => c.isText || c.isScript
    case Id => c.isId || c.isScript
    case IdRegEx => c.isId || c.isScript
    case RecordState => c.isRecordState
    case NoType => false
  }

  /** The columns configure selects from the first |cols| columns, in ascending order. */
  function Considered(t: SearchType, cols: seq<ColumnInfo>): seq<int> {
    if cols == [] then []
    else Considered(t, cols[..|cols| - 1]) + (if Consider(t, cols[|cols| - 1]) then [|cols| - 1] else [])
  }

  predicate Increasing(s: seq<int>) {
    forall i, j :: 0 <= i < j < |s| ==> s[i] < s[j]
  }

  /**
   * configure selects exactly the columns whose display fits the type, each
   * once and in ascending order (an ordered std::set).
   */
  lemma {:induction false} ConsideredSpec(t: SearchType, cols: seq<ColumnInfo>)
    ensures Increasing(Considered(t, cols))
    ensures forall c :: c in Considered(t, cols) <==> 0 <= c < |cols| && Consider(t, cols[c])
  {
    if cols != [] {
      var init := cols[..|cols| - 1];
      ConsideredSpec(t, init);
      assert forall c :: 0 <= c < |init| ==> init[c] == cols[c];
      var before := Considered(t, init);
      forall i | 0 <= i < |before|
        ensures before[i] < |cols| - 1
      {
        assert before[i] in before;
      }
    }
  }

  /** A search of type None looks at no column. */
  lemma {:induction false} NoTypeConsidersNothing(cols: seq<ColumnInfo>)
    ensures Considered(NoType, cols) == []
  {
    if cols != [] {
      NoTypeConsidersNothing(cols[..|cols| - 1]);
    }
  }

  /* ---------------- messages ---------------- */

  /** CSMWorld::UniversalId of a record: its type and id. */
  datatype UniversalId = UniversalId(recordType: int, id: string)

  datatype Message = Message(id: UniversalId, description: string, hint: string)

  /** The hint of a text or regex match: "r: <column id> <position> <length>". */
  function Hint(columnId: int, pos: int, length: int): string {
    "r: " + IntToString(columnId) + " " + IntToString(pos) + " " + IntToString(length)
  }

  lemma IntToStringHasNoSpace(i: int)
    ensures ' ' !in IntToString(i)
  {
    var r := IntToString(i);
    if i < 0 {
      assert forall k :: 1 <= k < |r| ==> r[k] == r[1..][k - 1];
    }
  }

  lemma IntToStringInjective(a: int, b: int)
    requires IntToString(a) == IntToString(b)
    ensures a == b
  {
    if a >= 0 && b >= 0 {
      NatToStringInjective(a, b);
    } else if a < 0 && b < 0 {
      NatToStringInjective(-a, -b);
    }
  }

  /** Text without spaces, a space, then the rest: the first space splits it back. */
  lemma SplitAtSpace(a: string, b: string, a2: string, b2: string)
    requires ' ' !in a && ' ' !in a2 && a + [' '] + b == a2 + [' '] + b2
    ensures a == a2 && b == b2
  {
    var s := a + [' '] + b;
    assert |a| == |a2| by {
      assert s[|a|] == ' ' && s[|a2|] == ' ';
      assert forall k :: 0 <= k < |a2| ==> s[k] == a2[k] && a2[k] in a2;
      assert forall k :: 0 <= k < |a| ==> s[k] == a[k] && a[k] in a;
    }
    assert a == s[..|a|] == a2;
    assert b == s[|a| + 1..] == b2;
  }

  /** Three space-free fields after "r: " can be read back. */
  lemma HintFields(x: string, y: string, z: string, x2: string, y2: string, z2: string)
    requires ' ' !in x && ' ' !in y && ' ' !in x2 && ' ' !in y2
    requires "r: " + x + " " + y + " " + z == "r: " + x2 + " " + y2 + " " + z2
    ensures x == x2 && y == y2 && z == z2
  {
    var h := "r: " + x + " " + y + " " + z;
    assert h[3..] == x + [' '] + (y + [' '] + z);
    assert h[3..] == x2 + [' '] + (y2 + [' '] + z2);
    SplitAtSpace(x, y + [' '] + z, x2, y2 + [' '] + z2);
    SplitAtSpace(y, z, y2, z2);
  }

  /** A hint names its match: the column id, position and length can be read back from it. */
  lemma HintIdentifiesMatch(columnId: int, pos: int, length: int, columnId2: int, pos2: int, length2: int)
    requires Hint(columnId, pos, length) == Hint(columnId2, pos2, length2)
    ensures columnId == columnId2 && pos == pos2 && length == length2
  {
    IntToStringHasNoSpace(columnId);
    IntToStringHasNoSpace(columnId2);
    IntToStringHasNoSpace(pos);
    IntToStringHasNoSpace(pos2);
    HintFields(IntToString(columnId), IntToString(pos), IntToString(length),
      IntToString(columnId2), IntToString(pos2), IntToString(length2));
    IntToStringInjective(columnId, columnId2);
    IntToStringInjective(pos, pos2);
    IntToStringInjective(length, length2);
  }

  /** CSMDoc::Messages: the messages reported so far. */
  class Messages {
    var items: seq<Message>

    constructor ()
      ensures items == []
    {
      items := [];
    }

    method Add(m: Message)
      modifies this
      ensures items == old(items) + [m]
    {
      items := items + [m];
    }
  }

  /* ---------------- formatDescription ---------------- */

  /**
   * QString::mid(position, n): the part of `s` from `position` on, at most
   * `n` characters; a negative `n` means "to the end", a negative position
   * cuts the count, and a position past the end gives the empty string.
   */
  function Mid(s: string, position: int, n: int): (r: string)
    ensures |r| <= |s|
  {
    if position > |s| then ""
    else if position < 0 then
      (if n < 0 || n + position >= |s| then s else if n + position <= 0 then "" else s[..n + position])
    else if n < 0 || n > |s| - position then s[position..]
    else s[position..position + n]
  }

  /** The context kept on each side of a match. */
  const Padding := 10

  /** The window formatDescription cuts out: its start and its length. */
  function Window(pos: int, length: int): (int, int) {
    if pos < Padding then (0, length + pos + Padding) else (pos - Padding, length + 2 * Padding)
  }

  function Max(a: int, b: int): int { if a < b then b else a }
  function Min(a: int, b: int): int { if a < b then a else b }

  /**
   * The window holds the match with up to ten characters of context on each
   * side, clipped to the text.
   */
  lemma WindowAroundMatch(d: string, pos: int, length: int)
    requires 0 <= pos <= |d| && 0 <= length
    ensures var (start, n) := Window(pos, length);
      Mid(d, start, n) == d[Max(0, pos - Padding)..Min(|d|, pos + length + Padding)]
  {
  }

  /** A match position further than ten characters past the end leaves nothing to show. */
  lemma WindowPastEnd(d: string, pos: int, length: int)
    requires pos - Padding > |d|
    ensures var (start, n) := Window(pos, length); Mid(d, start, n) == ""
  {
  }

  /** QString::remove('\r'). */
  function RemoveCarriageReturns(s: string): string {
    if s == [] then [] else (if s[0] == '\r' then [] else [s[0]]) + RemoveCarriageReturns(s[1..])
  }

  /** QString::replace("\n", "<CR>"). */
  function ReplaceNewlines(s: string): string {
    if s == [] then [] else (if s[0] == '\n' then "<CR>" else [s[0]]) + ReplaceNewlines(s[1..])
  }

  /** QString::replace('\t', ' '). */
  function ReplaceTabs(s: string): string {
    if s == [] then [] else [if s[0] == '\t' then ' ' else s[0]] + ReplaceTabs(s[1..])
  }

  /** The clean-up of formatDescription, in its three passes. */
  function CleanUp(s: string): string {
    ReplaceTabs(ReplaceNewlines(RemoveCarriageReturns(s)))
  }

  /** What one character of the window becomes. */
  function CleanChar(c: char): string {
    if c == '\r' then "" else if c == '\n' then "<CR>" else if c == '\t' then " " else [c]
  }

  /** The clean-up done character by character. */
  function CleanEach(s: string): string {
    if s == [] then [] else CleanChar(s[0]) + CleanEach(s[1..])
  }

  lemma {:induction false} ReplaceTabsAppend(a: string, b: string)
    ensures ReplaceTabs(a + b) == ReplaceTabs(a) + ReplaceTabs(b)
  {
    if a == [] {
      assert a + b == b;
    } else {
      assert (a + b)[0] == a[0] && (a + b)[1..] == a[1..] + b;
      ReplaceTabsAppend(a[1..], b);
    }
  }

  lemma {:induction false} ReplaceNewlinesAppend(a: string, b: string)
    ensures ReplaceNewlines(a + b) == ReplaceNewlines(a) + ReplaceNewlines(b)
  {
    if a == [] {
      assert a + b == b;
    } else {
      assert (a + b)[0] == a[0] && (a + b)[1..] == a[1..] + b;
      ReplaceNewlinesAppend(a[1..], b);
    }
  }

  lemma {:induction false} ReplaceTabsNoTab(s: string)
    requires '\t' !in s
    ensures ReplaceTabs(s) == s
  {
    if s != [] {
      assert s[0] in s;
      assert forall c :: c in s[1..] ==> c in s;
      ReplaceTabsNoTab(s[1..]);
    }
  }

  /** The three passes do what the per-character rule says: drop '\r', write "<CR>" for '\n', a space for a tab. */
  lemma {:induction false} CleanUpPerCharacter(s: string)
    ensures CleanUp(s) == CleanEach(s)
  {
    if s != [] {
      CleanUpPerCharacter(s[1..]);
      var rest := RemoveCarriageReturns(s[1..]);
      var head := if s[0] == '\r' then [] else [s[0]];
      assert RemoveCarriageReturns(s) == head + rest;
      ReplaceNewlinesAppend(head, rest);
      var nl := if s[0] == '\r' then "" else if s[0] == '\n' then "<CR>" else [s[0]];
      assert ReplaceNewlines(head) == nl by {
        if head != [] {
          assert head[1..] == [];
        }
      }
      ReplaceTabsAppend(nl, ReplaceNewlines(rest));
      assert ReplaceTabs(nl) == CleanChar(s[0]) by {
        if s[0] == '\t' {
          assert nl == ['\t'] && nl[1..] == [];
        } else {
          ReplaceTabsNoTab(nl);
        }
      }
    }
  }

  /** After the clean-up no carriage return, newline or tab is left. */
  lemma {:induction false} CleanEachIsOneLine(s: string)
    ensures '\r' !in CleanEach(s) && '\n' !in CleanEach(s) && '\t' !in CleanEach(s)
  {
    if s != [] {
      CleanEachIsOneLine(s[1..]);
      assert CleanEach(s) == CleanChar(s[0]) + CleanEach(s[1..]);
    }
  }

  /** CSMTools::Search::formatDescription. */
  function FormatDescription(description: string, pos: int, length: int): (r: string)
    ensures '\r' !in r && '\n' !in r && '\t' !in r
  {
    var (start, n) := Window(pos, length);
    var text := Mid(description, start, n);
    CleanUpPerCharacter(text);
    CleanEachIsOneLine(text);
    CleanUp(text)
  }

  /* ---------------- text search ---------------- */

  /** Two strings are equal once each character is case-folded. */
  predicate FoldedEqual(a: string, b: string, fold: char -> char) {
    |a| == |b| && (a == [] || (fold(a[0]) == fold(b[0]) && FoldedEqual(a[1..], b[1..], fold)))
  }

  /** `search` occurs at `i` in `text`, comparing characters after case folding. */
  predicate MatchAt(text: string, search: string, i: int, fold: char -> char) {
    0 <= i && i + |search| <= |text| && FoldedEqual(text[i..i + |search|], search, fold)
  }

  /** QString::indexOf(search, from, Qt::CaseInsensitive): the first match at or after `from`, or -1. */
  function IndexOf(text: string, search: string, from: nat, fold: char -> char): int
    decreases |text| - from
  {
    if from + |search| > |text| then -1
    else if MatchAt(text, search, from, fold) then from
    else IndexOf(text, search, from + 1, fold)
  }

  /**
   * IndexOf finds the first match: -1 or a position at or after `from` where
   * the search text fits; a match, with none before it, and none at all when
   * it gives -1.
   */
  lemma {:induction false} IndexOfFirst(text: string, search: string, from: nat, fold: char -> char)
    ensures IndexOf(text, search, from, fold) == -1 ||
      (from <= IndexOf(text, search, from, fold) && IndexOf(text, search, from, fold) + |search| <= |text|)
    ensures IndexOf(text, search, from, fold) != -1 ==> MatchAt(text, search, IndexOf(text, search, from, fold), fold)
    ensures IndexOf(text, search, from, fold) == -1 ==> forall i :: from <= i ==> !MatchAt(text, search, i, fold)
    ensures IndexOf(text, search, from, fold) != -1 ==>
      forall i :: from <= i < IndexOf(text, search, from, fold) ==> !MatchAt(text, search, i, fold)
    decreases |text| - from
  {
    if from + |search| <= |text| && !MatchAt(text, search, from, fold) {
      IndexOfFirst(text, search, from + 1, fold);
    }
  }

  /** The match positions the search loop reports from `from` on: each search resumes after the previous match. */
  function Occurrences(text: string, search: string, from: nat, fold: char -> char): seq<nat>
    requires |search| > 0
    decreases |text| - from
  {
    var p := IndexOf(text, search, from, fold);
    if p == -1 then []
    else
      IndexOfFirst(text, search, from, fold);
      [p as nat] + Occurrences(text, search, p + |search|, fold)
  }

  lemma OccurrencesStep(text: string, search: string, from: nat, fold: char -> char)
    requires |search| > 0 && IndexOf(text, search, from, fold) != -1
    ensures var p := IndexOf(text, search, from, fold);
      from <= p && Occurrences(text, search, from, fold) == [p as nat] + Occurrences(text, search, p + |search|, fold)
  {
    IndexOfFirst(text, search, from, fold);
  }

  /** One round of the search loop: the match found joins those reported, and the search resumes after it. */
  lemma OccurrencesAdvance(done: seq<nat>, all: seq<nat>, text: string, search: string, from: nat, pos: int, next: int,
                           fold: char -> char)
    requires |search| > 0 && pos == IndexOf(text, search, from, fold) && pos != -1 && next == pos + |search|
    requires done + Occurrences(text, search, from, fold) == all
    ensures from <= pos && from < next && (done + [pos as nat]) + Occurrences(text, search, next, fold) == all
  {
    OccurrencesStep(text, search, from, fold);
  }

  /** Positions in `occ` are matches of `search` at or after `from`. */
  predicate AllMatches(occ: seq<nat>, text: string, search: string, from: nat, fold: char -> char) {
    forall k :: 0 <= k < |occ| ==> from <= occ[k] && MatchAt(text, search, occ[k], fold)
  }

  /** Each position lies at least `length` past the one before it. */
  predicate Apart(occ: seq<nat>, length: nat) {
    forall k :: 0 <= k < |occ| - 1 ==> occ[k] + length <= occ[k + 1]
  }

  /** Position `q` lies inside one of the matches of length `length` at `occ`. */
  predicate Covered(occ: seq<nat>, q: int, length: nat) {
    exists k :: 0 <= k < |occ| && occ[k] <= q < occ[k] + length
  }

  /**
   * The reported positions are matches at or after `from`, each starting
   * where the previous one ended or later, so together they fit in the rest
   * of the text.
   */
  lemma {:induction false} OccurrencesSpec(text: string, search: string, from: nat, fold: char -> char)
    requires |search| > 0
    ensures AllMatches(Occurrences(text, search, from, fold), text, search, from, fold)
    ensures Apart(Occurrences(text, search, from, fold), |search|)
    decreases |text| - from
  {
    var p := IndexOf(text, search, from, fold);
    IndexOfFirst(text, search, from, fold);
    if p != -1 {
      OccurrencesSpec(text, search, p + |search|, fold);
      var rest := Occurrences(text, search, p + |search|, fold);
      var occ := Occurrences(text, search, from, fold);
      assert occ == [p] + rest;
      assert forall k :: 1 <= k < |occ| ==> occ[k] == rest[k - 1];
      if rest != [] {
        assert occ[1] == rest[0];
      }
    }
  }

  /** Being disjoint, the reported matches together fit in the text after `from`. */
  lemma {:induction false} OccurrencesFit(text: string, search: string, from: nat, fold: char -> char)
    requires |search| > 0
    ensures |Occurrences(text, search, from, fold)| * |search| <= if from <= |text| then |text| - from else 0
    decreases |text| - from
  {
    var p := IndexOf(text, search, from, fold);
    if p != -1 {
      IndexOfFirst(text, search, from, fold);
      var next := p + |search|;
      OccurrencesFit(text, search, next, fold);
      var n := |Occurrences(text, search, next, fold)|;
      assert |Occurrences(text, search, from, fold)| == n + 1;
      assert (n + 1) * |search| == n * |search| + |search|;
    }
  }

  /** No match is missed: every match at or after `from` lies within a reported one (leftmost, greedy). */
  lemma {:induction false} OccurrencesComplete(text: string, search: string, from: nat, fold: char -> char, q: int)
    requires |search| > 0 && from <= q && MatchAt(text, search, q, fold)
    ensures Covered(Occurrences(text, search, from, fold), q, |search|)
    decreases |text| - from
  {
    var p := IndexOf(text, search, from, fold);
    var occ := Occurrences(text, search, from, fold);
    IndexOfFirst(text, search, from, fold);
    assert p != -1 && p <= q;
    assert occ == [p] + Occurrences(text, search, p + |search|, fold);
    if q < p + |search| {
      assert 0 < |occ| && occ[0] <= q < occ[0] + |search|;
    } else {
      OccurrencesComplete(text, search, p + |search|, fold, q);
      var rest := Occurrences(text, search, p + |search|, fold);
      var k :| 0 <= k < |rest| && rest[k] <= q < rest[k] + |search|;
      assert occ[k + 1] == rest[k];
    }
  }

  /** The message of one match found in a cell. */
  function MatchMessage(text: string, pos: int, length: int, columnId: int, id: UniversalId): Message {
    Message(id, FormatDescription(text, pos, length), Hint(columnId, pos, length))
  }

  /** `f` applied to each of `xs`, in order: the messages of a cell's matches as its loop reports them. */
  function MapMessages<T>(xs: seq<T>, f: T -> Message): (r: seq<Message>)
    ensures |r| == |xs|
  {
    if xs == [] then [] else MapMessages(xs[..|xs| - 1], f) + [f(xs[|xs| - 1])]
  }

  /** Reporting one more match appends its message. */
  lemma MapMessagesStep<T>(xs: seq<T>, x: T, f: T -> Message)
    ensures MapMessages(xs + [x], f) == MapMessages(xs, f) + [f(x)]
  {
    assert (xs + [x])[..|xs|] == xs;
  }

  /** The k-th message is that of the k-th match. */
  lemma {:induction false} MapMessagesAt<T>(xs: seq<T>, f: T -> Message)
    ensures forall k :: 0 <= k < |xs| ==> MapMessages(xs, f)[k] == f(xs[k])
  {
    if xs != [] {
      var init := xs[..|xs| - 1];
      MapMessagesAt(init, f);
      assert forall k :: 0 <= k < |init| ==> xs[k] == init[k];
    }
  }

  /** The messages for the matches at `positions`, in order. */
  function TextMessages(text: string, length: int, positions: seq<nat>, columnId: int, id: UniversalId): (r: seq<Message>)
    ensures |r| == |positions|
  {
    MapMessages(positions, (pos: nat) => MatchMessage(text, pos, length, columnId, id))
  }

  /** The k-th message describes the k-th match. */
  lemma TextMessagesAt(text: string, length: int, positions: seq<nat>, columnId: int, id: UniversalId)
    ensures forall k :: 0 <= k < |positions| ==>
      TextMessages(text, length, positions, columnId, id)[k] == MatchMessage(text, positions[k], length, columnId, id)
  {
    MapMessagesAt(positions, (pos: nat) => MatchMessage(text, pos, length, columnId, id));
  }

  /* ---------------- regular-expression search ---------------- */

  /**
   * QRegExp::indexIn followed by matchedLength: the position and length of
   * the first match at or after the offset.
   */
  type Matcher = (string, nat) -> Option<(nat, nat)>

  /** A matcher reports matches that start at or after the offset and lie inside the text. */
  ghost predicate WellBehaved(find: Matcher, text: string) {
    forall from: nat :: find(text, from).Some? ==>
      from <= find(text, from).value.0 && find(text, from).value.0 + find(text, from).value.1 <= |text|
  }

  /** A matcher that is well behaved on every text. */
  ghost predicate Regular(find: Matcher) {
    forall text: string :: WellBehaved(find, text)
  }

  /** Where searchRegExCell resumes after a match, as written: right after the match. */
  function ResumeAsWritten(pos: nat, length: nat): nat {
    pos + length
  }

  /** Where it should resume: after the match, and at least one character further. */
  function Resume(pos: nat, length: nat): (r: nat)
    ensures r > pos && r >= pos + length
  {
    if length == 0 then pos + 1 else pos + length
  }

  /** The matches the corrected loop reports from `from` on. */
  function RegexMatches(text: string, find: Matcher, from: nat): seq<(nat, nat)>
    requires WellBehaved(find, text)
    decreases |text| + 1 - from
  {
    match find(text, from)
    case None => []
    case Some((p, length)) => [(p, length)] + RegexMatches(text, find, Resume(p, length))
  }

  /** Matches lie inside the text, at or after `from`. */
  predicate MatchesWithin(ms: seq<(nat, nat)>, text: string, from: nat) {
    forall k :: 0 <= k < |ms| ==> from <= ms[k].0 && ms[k].0 + ms[k].1 <= |text|
  }

  /** Each match starts after the previous one started and no earlier than it ended. */
  predicate MatchesAdvance(ms: seq<(nat, nat)>) {
    forall k :: 0 <= k < |ms| - 1 ==> ms[k].0 + ms[k].1 <= ms[k + 1].0 && ms[k].0 < ms[k + 1].0
  }

  lemma RegexMatchesAdvance(done: seq<(nat, nat)>, text: string, find: Matcher, from: nat)
    requires WellBehaved(find, text) && find(text, from).Some?
    ensures var (p, length) := find(text, from).value;
      p + length <= |text| && from <= p &&
      (done + [(p, length)]) + RegexMatches(text, find, Resume(p, length)) == done + RegexMatches(text, find, from)
  {
    var (p, length) := find(text, from).value;
    assert RegexMatches(text, find, from) == [(p, length)] + RegexMatches(text, find, Resume(p, length));
  }

  /** The corrected loop reports matches at strictly increasing positions, none starting inside an earlier one. */
  lemma {:induction false} RegexMatchesIncreasing(text: string, find: Matcher, from: nat)
    requires WellBehaved(find, text)
    ensures MatchesWithin(RegexMatches(text, find, from), text, from)
    ensures MatchesAdvance(RegexMatches(text, find, from))
    decreases |text| + 1 - from
  {
    match find(text, from)
    case None =>
    case Some((p, length)) =>
      RegexMatchesIncreasing(text, find, Resume(p, length));
      var ms := RegexMatches(text, find, from);
      var rest := RegexMatches(text, find, Resume(p, length));
      assert from <= p && p + length <= |text|;
      assert ms == [(p, length)] + rest;
      assert forall k :: 1 <= k < |ms| ==> ms[k] == rest[k - 1];
      if rest != [] {
        assert ms[1] == rest[0];
      }
  }

  /**
   * The loop as written, run for at most `fuel` iterations (it need not
   * stop on its own).
   */
  function RegexMatchesAsWritten(text: string, find: Matcher, from: nat, fuel: nat): seq<(nat, nat)>
    decreases fuel
  {
    if fuel == 0 then []
    else
      match find(text, from)
      case None => []
      case Some((p, length)) => [(p, length)] + RegexMatchesAsWritten(text, find, ResumeAsWritten(p, length), fuel - 1)
  }

  /**
   * What QRegExp("x*") finds in a text without an 'x': the empty match at
   * the offset itself.
   */
  function EmptyMatch(text: string, from: nat): Option<(nat, nat)> {
    if from <= |text| then Some((from, 0)) else None
  }

  /**
   * As written, a pattern that matches the empty string makes the loop report
   * the same empty match at the same place forever: after any number of
   * iterations it has not stopped.
   */
  lemma {:induction false} RegexAsWrittenNeverStops(text: string, fuel: nat)
    ensures RegexMatchesAsWritten(text, EmptyMatch, 0, fuel) == seq(fuel, _ => (0, 0))
  {
    if fuel > 0 {
      RegexAsWrittenNeverStops(text, fuel - 1);
      assert RegexMatchesAsWritten(text, EmptyMatch, 0, fuel) == [(0, 0)] + RegexMatchesAsWritten(text, EmptyMatch, 0, fuel - 1);
    }
  }

  /** Corrected, the same pattern reports one empty match per position and stops. */
  lemma {:induction false} RegexEmptyMatchesStop(text: string, from: nat)
    requires from <= |text| + 1
    ensures WellBehaved(EmptyMatch, text)
    ensures |RegexMatches(text, EmptyMatch, from)| == |text| + 1 - from
    decreases |text| + 1 - from
  {
    if from <= |text| {
      RegexEmptyMatchesStop(text, from + 1);
    }
  }

  /* ---------------- record-state search ---------------- */

  /** The exception std::vector::at throws for an index out of range. */
  const AtOutOfRange := "vector::_M_range_check"

  /**
   * searchRecordStateCell: one message, naming the state, when the cell holds
   * the searched value; a value that names no state throws.
   */
  function RecordStateMessages(data: int, value: int, stateNames: seq<string>, columnId: int, id: UniversalId)
    : (r: Result<seq<Message>, string>)
    ensures r.Failure? <==> data == value && !(0 <= data < |stateNames|)
    ensures r.Success? ==> |r.value| == (if data == value then 1 else 0)
    ensures r.Success? && data == value ==> r.value[0].description == stateNames[data]
  {
    if data != value then Success([])
    else if 0 <= data < |stateNames| then Success([Message(id, stateNames[data], "r: " + IntToString(columnId))])
    else Failure(AtOutOfRange)
  }

  /* ---------------- the search object ---------------- */

  class Search {
    var searchType: SearchType
    var text: string
    var regExp: Option<Matcher>
    var value: int
    var columns: seq<int>
    var idColumn: int
    var typeColumn: int

    /** Search(): a search of type None. */
    constructor ()
      ensures searchType == NoType && columns == []
    {
      searchType := NoType;
      text := "";
      regExp := None;
      value := 0;
      columns := [];
      idColumn := 0;
      typeColumn := 0;
    }

    constructor Make(t: SearchType, text: string, regExp: Option<Matcher>, value: int)
      ensures searchType == t && this.text == text && this.regExp == regExp && this.value == value && columns == []
    {
      searchType := t;
      this.text := text;
      this.regExp := regExp;
      this.value := value;
      columns := [];
      idColumn := 0;
      typeColumn := 0;
    }

    /** Search(type, string): Failure is the logic_error thrown for a type that takes no string. */
    static method WithText(t: SearchType, value: string) returns (r: Result<Search, string>)
      ensures r.Success? <==> Accepts(StringParam, t)
      ensures r.Success? ==> fresh(r.value) && r.value.searchType == t && r.value.text == value && r.value.columns == []
      ensures r.Failure? ==> r.error == ParameterError(StringParam)
    {
      if t != Text && t != Id {
        return Failure(ParameterError(StringParam));
      }
      var s := new Search.Make(t, value, None, 0);
      r := Success(s);
    }

    /** Search(type, QRegExp). */
    static method WithRegExp(t: SearchType, value: Matcher) returns (r: Result<Search, string>)
      ensures r.Success? <==> Accepts(RegExpParam, t)
      ensures r.Success? ==> fresh(r.value) && r.value.searchType == t && r.value.regExp == Some(value) && r.value.columns == []
      ensures r.Failure? ==> r.error == ParameterError(RegExpParam)
    {
      if t != TextRegEx && t != IdRegEx {
        return Failure(ParameterError(RegExpParam));
      }
      var s := new Search.Make(t, "", Some(value), 0);
      r := Success(s);
    }

    /** Search(type, int). */
    static method WithValue(t: SearchType, value: int) returns (r: Result<Search, string>)
      ensures r.Success? <==> Accepts(IntParam, t)
      ensures r.Success? ==> fresh(r.value) && r.value.searchType == t && r.value.value == value && r.value.columns == []
      ensures r.Failure? ==> r.error == ParameterError(IntParam)
    {
      if t != RecordState {
        return Failure(ParameterError(IntParam));
      }
      var s := new Search.Make(t, "", None, value);
      r := Success(s);
    }

    /** Search::configure: selects the columns to look at and finds the id and record-type columns. */
    method Configure(table: Table)
      modifies this
      ensures columns == Considered(searchType, table.columns)
      ensures idColumn == table.idColumn && typeColumn == table.typeColumn
      ensures searchType == old(searchType) && text == old(text) && regExp == old(regExp) && value == old(value)
    {
      columns := [];
      var i := 0;
      while i < |table.columns|
        invariant 0 <= i <= |table.columns|
        invariant columns == Considered(searchType, table.columns[..i])
        invariant searchType == old(searchType) && text == old(text) && regExp == old(regExp) && value == old(value)
      {
        assert table.columns[..i + 1][..i] == table.columns[..i];
        var consider := false;
        match searchType {
          case Text =>
            consider := table.columns[i].isText || table.columns[i].isScript;
          case TextRegEx =>
            consider := table.columns[i].isText || table.columns[i].isScript;
          case Id =>
            consider := table.columns[i].isId || table.columns[i].isScript;
          case IdRegEx =>
            consider := table.columns[i].isId || table.columns[i].isScript;
          case RecordState =>
            consider := table.columns[i].isRecordState;
          case NoType =>
        }
        if consider {
          columns := columns + [i];
        }
        i := i + 1;
      }
      assert table.columns[..i] == table.columns;
      idColumn := table.idColumn;
      typeColumn := table.typeColumn;
    }

    /** Search::searchTextCell for the cell text `cell` of a column with id `columnId`. */
    method SearchTextCell(cell: string, columnId: int, id: UniversalId, messages: Messages, fold: char -> char)
      requires |text| > 0
      modifies messages
      ensures messages.items == old(messages.items) + TextMessages(cell, |text|, Occurrences(cell, text, 0, fold), columnId, id)
    {
      var search := text;
      var from := 0;
      ghost var done: seq<nat> := [];
      ghost var all := Occurrences(cell, search, 0, fold);
      var pos := IndexOf(cell, search, 0, fold);
      while pos != -1
        invariant 0 <= from && pos == IndexOf(cell, search, from, fold)
        invariant done + Occurrences(cell, search, from, fold) == all
        invariant messages.items == old(messages.items) + TextMessages(cell, |search|, done, columnId, id)
        decreases |cell| - from
      {
        ghost var prev := from;
        from := pos + |search|;
        OccurrencesAdvance(done, all, cell, search, prev, pos, from, fold);
        ReportMatch(cell, pos, |search|, columnId, id, messages, old(messages.items), done);
        done := done + [pos as nat];
        pos := IndexOf(cell, search, from, fold);
      }
      assert done + [] == done;
    }

    /** Adds the message of the match at `pos` to those of the matches `done` before it. */
    static method ReportMatch(cell: string, pos: nat, length: int, columnId: int, id: UniversalId, messages: Messages,
                              ghost start: seq<Message>, ghost done: seq<nat>)
      requires messages.items == start + TextMessages(cell, length, done, columnId, id)
      modifies messages
      ensures messages.items == start + TextMessages(cell, length, done + [pos], columnId, id)
    {
      messages.Add(MatchMessage(cell, pos, length, columnId, id));
      TextMessagesStep(cell, length, done, pos, columnId, id);
    }

    /** Search::searchRegExCell, resuming after an empty match one character further. */
    method SearchRegExCell(cell: string, find: Matcher, columnId: int, id: UniversalId, messages: Messages)
      requires WellBehaved(find, cell)
      modifies messages
      ensures messages.items == old(messages.items) + RegexMessages(cell, RegexMatches(cell, find, 0), columnId, id)
    {
      var from: nat := 0;
      ghost var done: seq<(nat, nat)> := [];
      var m := find(cell, from);
      while m.Some?
        invariant from <= |cell| + 1 && m == find(cell, from)
        invariant done + RegexMatches(cell, find, from) == RegexMatches(cell, find, 0)
        invariant messages.items == old(messages.items) + RegexMessages(cell, done, columnId, id)
        decreases |cell| + 1 - from
      {
        var (p, length) := m.value;
        ReportRegexMatch(cell, p, length, columnId, id, messages, old(messages.items), done);
        RegexMatchesAdvance(done, cell, find, from);
        done := done + [(p, length)];
        from := Resume(p, length);
        m := find(cell, from);
      }
      assert done + [] == done;
    }

    /** Adds the message of the regex match (p, length) to those of the matches `done` before it. */
    static method ReportRegexMatch(cell: string, p: nat, length: nat, columnId: int, id: UniversalId, messages: Messages,
                                   ghost start: seq<Message>, ghost done: seq<(nat, nat)>)
      requires messages.items == start + RegexMessages(cell, done, columnId, id)
      modifies messages
      ensures messages.items == start + RegexMessages(cell, done + [(p, length)], columnId, id)
    {
      messages.Add(MatchMessage(cell, p, length, columnId, id));
      RegexMessagesStep(cell, done, p, length, columnId, id);
    }

    /** Search::searchRecordStateCell; Failure is the exception of states.at. */
    method SearchRecordStateCell(data: int, stateNames: seq<string>, columnId: int, id: UniversalId, messages: Messages)
      returns (err: Option<string>)
      modifies messages
      ensures var r := RecordStateMessages(data, value, stateNames, columnId, id);
        (err.None? <==> r.Success?) &&
        (r.Success? ==> messages.items == old(messages.items) + r.value) &&
        (r.Failure? ==> err == Some(r.error) && messages.items == old(messages.items))
    {
      if data == value {
        if !(0 <= data < |stateNames|) {
          return Some(AtOutOfRange);
        }
        messages.Add(Message(id, stateNames[data], "r: " + IntToString(columnId)));
      }
      err := None;
    }

    /** The body of searchRow's loop for the k-th selected column: dispatch on the search type. */
    method SearchCell(table: Table, row: int, k: nat, stateNames: seq<string>, messages: Messages, fold: char -> char)
      returns (err: Option<string>)
      requires k < |columns| && 0 <= columns[k] < |table.columns|
      requires (searchType == Text || searchType == Id) ==> |text| > 0
      requires (searchType == TextRegEx || searchType == IdRegEx) ==>
        regExp.Some? && Regular(regExp.value)
      modifies messages
      ensures var r := CellMessages(this, table, row, stateNames, fold, k);
        (err.None? <==> r.Success?) &&
        (r.Success? ==> messages.items == old(messages.items) + r.value) &&
        (r.Failure? ==> err == Some(r.error) && messages.items == old(messages.items))
    {
      var c := columns[k];
      var id := RowId(table, row, typeColumn, idColumn);
      var cell := CellAt(table, row, c);
      var columnId := table.columns[c].columnId;
      err := None;
      match searchType {
        case Text =>
          SearchTextCell(cell.text, columnId, id, messages, fold);
        case Id =>
          SearchTextCell(cell.text, columnId, id, messages, fold);
        case TextRegEx =>
          SearchRegExCell(cell.text, regExp.value, columnId, id, messages);
        case IdRegEx =>
          SearchRegExCell(cell.text, regExp.value, columnId, id, messages);
        case RecordState =>
          err := SearchRecordStateCell(cell.number, stateNames, columnId, id, messages);
        case NoType =>
          assert messages.items == old(messages.items) + [];
      }
    }

    /**
     * Search::searchRow: the messages of the searched columns are added in
     * column order; `err` is the exception a record-state cell threw, which
     * ends the row and leaves the earlier columns' messages in the sink.
     */
    method SearchRow(table: Table, row: int, stateNames: seq<string>, messages: Messages, fold: char -> char)
      returns (err: Option<string>)
      requires (searchType == Text || searchType == Id) ==> |text| > 0
      requires (searchType == TextRegEx || searchType == IdRegEx) ==>
        regExp.Some? && Regular(regExp.value)
      requires forall k :: 0 <= k < |columns| ==> 0 <= columns[k] < |table.columns|
      modifies messages
      ensures var o := RowMessages(this, table, row, stateNames, fold, 0);
        messages.items == old(messages.items) + o.reported && err == o.thrown
    {
      var k := 0;
      while k < |columns|
        invariant 0 <= k <= |columns|
        invariant messages.items + RowMessages(this, table, row, stateNames, fold, k).reported ==
          old(messages.items) + RowMessages(this, table, row, stateNames, fold, 0).reported
        invariant RowMessages(this, table, row, stateNames, fold, k).thrown ==
          RowMessages(this, table, row, stateNames, fold, 0).thrown
      {
        ghost var before := messages.items;
        err := SearchCell(table, row, k, stateNames, messages, fold);
        CombineStep(CellMessages(this, table, row, stateNames, fold, k), RowMessages(this, table, row, stateNames, fold, k + 1),
          before, messages.items);
        if err.Some? {
          return;
        }
        k := k + 1;
      }
      err := None;
      assert messages.items + [] == messages.items;
    }
  }

  /** Reporting one more match extends the messages by that match's message. */
  lemma TextMessagesStep(text: string, length: int, done: seq<nat>, pos: nat, columnId: int, id: UniversalId)
    ensures TextMessages(text, length, done + [pos], columnId, id) ==
      TextMessages(text, length, done, columnId, id) + [MatchMessage(text, pos, length, columnId, id)]
  {
    MapMessagesStep(done, pos, (pos: nat) => MatchMessage(text, pos, length, columnId, id));
  }

  /** The messages for the regex matches `ms`, in order. */
  function RegexMessages(text: string, ms: seq<(nat, nat)>, columnId: int, id: UniversalId): (r: seq<Message>)
    ensures |r| == |ms|
  {
    MapMessages(ms, (m: (nat, nat)) => MatchMessage(text, m.0, m.1, columnId, id))
  }

  /** The k-th message describes the k-th match, with its own length. */
  lemma RegexMessagesAt(text: string, ms: seq<(nat, nat)>, columnId: int, id: UniversalId)
    ensures forall k :: 0 <= k < |ms| ==>
      RegexMessages(text, ms, columnId, id)[k] == MatchMessage(text, ms[k].0, ms[k].1, columnId, id)
  {
    MapMessagesAt(ms, (m: (nat, nat)) => MatchMessage(text, m.0, m.1, columnId, id));
  }

  /** Reporting one more regex match extends the messages by that match's message. */
  lemma RegexMessagesStep(text: string, done: seq<(nat, nat)>, p: nat, length: nat, columnId: int, id: UniversalId)
    ensures RegexMessages(text, done + [(p, length)], columnId, id) ==
      RegexMessages(text, done, columnId, id) + [MatchMessage(text, p, length, columnId, id)]
  {
    MapMessagesStep(done, (p, length), (m: (nat, nat)) => MatchMessage(text, m.0, m.1, columnId, id));
  }

  /** The record a row stands for: its type and id cells. */
  function RowId(table: Table, row: int, typeColumn: int, idColumn: int): UniversalId {
    UniversalId(CellAt(table, row, typeColumn).number, CellAt(table, row, idColumn).text)
  }

  /** The messages of the k-th selected column of a row. */
  function CellMessages(s: Search, table: Table, row: int, stateNames: seq<string>, fold: char -> char, k: nat)
    : Result<seq<Message>, string>
    reads s
    requires k < |s.columns| && 0 <= s.columns[k] < |table.columns|
    requires (s.searchType == Text || s.searchType == Id) ==> |s.text| > 0
    requires (s.searchType == TextRegEx || s.searchType == IdRegEx) ==>
      s.regExp.Some? && Regular(s.regExp.value)
  {
    var c := s.columns[k];
    var id := RowId(table, row, s.typeColumn, s.idColumn);
    var cell := CellAt(table, row, c);
    var columnId := table.columns[c].columnId;
    match s.searchType
    case Text => Success(TextMessages(cell.text, |s.text|, Occurrences(cell.text, s.text, 0, fold), columnId, id))
    case Id => Success(TextMessages(cell.text, |s.text|, Occurrences(cell.text, s.text, 0, fold), columnId, id))
    case TextRegEx => Success(RegexMessages(cell.text, RegexMatches(cell.text, s.regExp.value, 0), columnId, id))
    case IdRegEx => Success(RegexMessages(cell.text, RegexMatches(cell.text, s.regExp.value, 0), columnId, id))
    case RecordState => RecordStateMessages(cell.number, s.value, stateNames, columnId, id)
    case NoType => Success([])
  }

  /**
   * What searching (part of) a row reports: the messages added, in column
   * order, and the exception that ended it early, if one did.
   */
  datatype RowOutcome = RowOutcome(reported: seq<Message>, thrown: Option<string>)

  /** The outcome of the selected columns k.. of a row, in ascending column order, up to the first exception. */
  function RowMessages(s: Search, table: Table, row: int, stateNames: seq<string>, fold: char -> char, k: nat)
    : RowOutcome
    reads s
    requires k <= |s.columns| && forall j :: 0 <= j < |s.columns| ==> 0 <= s.columns[j] < |table.columns|
    requires (s.searchType == Text || s.searchType == Id) ==> |s.text| > 0
    requires (s.searchType == TextRegEx || s.searchType == IdRegEx) ==>
      s.regExp.Some? && Regular(s.regExp.value)
    decreases |s.columns| - k
  {
    if k == |s.columns| then RowOutcome([], None)
    else Combine(CellMessages(s, table, row, stateNames, fold, k), RowMessages(s, table, row, stateNames, fold, k + 1))
  }

  /** One column's messages followed by the outcome of the columns after it; an exception stops the row. */
  function Combine(cell: Result<seq<Message>, string>, rest: RowOutcome): RowOutcome {
    match cell
    case Failure(e) => RowOutcome([], Some(e))
    case Success(first) => RowOutcome(first + rest.reported, rest.thrown)
  }

  /**
   * One column of the row, seen from the sink: with `after` the sink once the
   * column is searched, the rest of the row adds what the whole row from this
   * column on adds; a throwing column adds nothing and its exception is the row's.
   */
  lemma CombineStep(cell: Result<seq<Message>, string>, rest: RowOutcome, before: seq<Message>, after: seq<Message>)
    requires cell.Success? ==> after == before + cell.value
    requires cell.Failure? ==> after == before
    ensures cell.Success? ==>
      after + rest.reported == before + Combine(cell, rest).reported && rest.thrown == Combine(cell, rest).thrown
    ensures cell.Failure? ==>
      after == before + Combine(cell, rest).reported && Combine(cell, rest).thrown == Some(cell.error)
  {
    if cell.Success? {
      assert before + cell.value + rest.reported == before + (cell.value + rest.reported);
    } else {
      assert before + [] == before;
    }
  }

  /** A row throws exactly when one of its searched columns does. */
  lemma {:induction false} RowThrows(s: Search, table: Table, row: int, stateNames: seq<string>, fold: char -> char, k: nat)
    requires k <= |s.columns| && forall j :: 0 <= j < |s.columns| ==> 0 <= s.columns[j] < |table.columns|
    requires (s.searchType == Text || s.searchType == Id) ==> |s.text| > 0
    requires (s.searchType == TextRegEx || s.searchType == IdRegEx) ==>
      s.regExp.Some? && Regular(s.regExp.value)
    ensures RowMessages(s, table, row, stateNames, fold, k).thrown.Some? <==>
      exists j :: k <= j < |s.columns| && CellMessages(s, table, row, stateNames, fold, j).Failure?
    decreases |s.columns| - k
  {
    if k < |s.columns| {
      RowThrows(s, table, row, stateNames, fold, k + 1);
      if CellMessages(s, table, row, stateNames, fold, k).Failure? {
        assert k <= k < |s.columns| && CellMessages(s, table, row, stateNames, fold, k).Failure?;
      }
    }
  }

  /** The exception a row throws is that of its first throwing column. */
  lemma {:induction false} RowThrowsFirst(s: Search, table: Table, row: int, stateNames: seq<string>, fold: char -> char, k: nat, j: nat)
    requires k <= j < |s.columns| && forall i :: 0 <= i < |s.columns| ==> 0 <= s.columns[i] < |table.columns|
    requires (s.searchType == Text || s.searchType == Id) ==> |s.text| > 0
    requires (s.searchType == TextRegEx || s.searchType == IdRegEx) ==>
      s.regExp.Some? && Regular(s.regExp.value)
    requires forall i :: k <= i < j ==> CellMessages(s, table, row, stateNames, fold, i).Success?
    requires CellMessages(s, table, row, stateNames, fold, j).Failure?
    ensures RowMessages(s, table, row, stateNames, fold, k).thrown == Some(CellMessages(s, table, row, stateNames, fold, j).error)
    decreases j - k
  {
    if k < j {
      RowThrowsFirst(s, table, row, stateNames, fold, k + 1, j);
    }
  }

  /** A search of type None reports nothing for any row. */
  lemma NoTypeRowIsSilent(s: Search, table: Table, row: int, stateNames: seq<string>, fold: char -> char, k: nat)
    requires s.searchType == NoType
    requires k <= |s.columns| && forall j :: 0 <= j < |s.columns| ==> 0 <= s.columns[j] < |table.columns|
    ensures RowMessages(s, table, row, stateNames, fold, k) == RowOutcome([], None)
    decreases |s.columns| - k
  {
    if k < |s.columns| {
      NoTypeRowIsSilent(s, table, row, stateNames, fold, k + 1);
      assert CellMessages(s, table, row, stateNames, fold, k) == Success([]);
      var none: seq<Message> := [];
      assert none + none == none;
    }
  }

  /** The selected columns k.. of a row whose cell holds `value`. */
  function CountEqual(s: Search, table: Table, row: int, k: nat): nat
    reads s
    requires k <= |s.columns|
    decreases |s.columns| - k
  {
    if k == |s.columns| then 0
    else (if CellAt(table, row, s.columns[k]).number == s.value then 1 else 0) + CountEqual(s, table, row, k + 1)
  }

  /**
   * A record-state search reports one message per selected cell that holds
   * the searched value, and fails only when that value names no state.
   */
  lemma {:induction false} RecordStateRowCount(s: Search, table: Table, row: int, stateNames: seq<string>, fold: char -> char, k: nat)
    requires s.searchType == RecordState
    requires k <= |s.columns| && forall j :: 0 <= j < |s.columns| ==> 0 <= s.columns[j] < |table.columns|
    ensures var r := RowMessages(s, table, row, stateNames, fold, k);
      (r.thrown.Some? ==> !(0 <= s.value < |stateNames|)) &&
      (0 <= s.value < |stateNames| ==> r.thrown.None? && |r.reported| == CountEqual(s, table, row, k))
    decreases |s.columns| - k
  {
    if k < |s.columns| {
      RecordStateRowCount(s, table, row, stateNames, fold, k + 1);
    }
  }
}
