/** Preparing the session record for the two report pages: the per-key copy
    that shortens long texts and the standards list, and the static tables
    that turn the prepared record into labelled rows. */
module Display {
  import opened Strings
  import opened Record
  import opened Summary

  /** Fields whose text goes through the summariser. */
  const SummarizedFields: seq<string> :=
    ["sustained_inquiry", "process_assessment", "critique_revision", "reflection", "public_product"]

  const StandardsKey := "selected_standards"

  /** How many achievement standards a report page lists before the marker. */
  const StandardsShown := 4

  const MarkerHead := "...외 "
  const MarkerTail := "개 항목"

  /** The line that stands in for the standards that are not listed. */
  function StandardsMarker(hidden: nat): string {
    MarkerHead + NatToString(hidden) + MarkerTail
  }

  /** Reads the number of hidden standards back out of a marker line. */
  function MarkerCount(m: string): Option<nat> {
    if |m| >= |MarkerHead| + |MarkerTail| && m[..|MarkerHead|] == MarkerHead
       && m[|m| - |MarkerTail|..] == MarkerTail
    then
      var digits := m[|MarkerHead|..|m| - |MarkerTail|];
      if forall i :: 0 <= i < |digits| ==> IsDigit(digits[i]) then Some(ParseNat(digits)) else None
    else None
  }

  /** The marker records exactly how many standards it hides. */
  lemma MarkerRoundTrip(hidden: nat)
    ensures MarkerCount(StandardsMarker(hidden)) == Some(hidden)
  {
    var m := StandardsMarker(hidden);
    var d := NatToString(hidden);
    assert m[..|MarkerHead|] == MarkerHead;
    assert m[|m| - |MarkerTail|..] == MarkerTail;
    assert m[|MarkerHead|..|m| - |MarkerTail|] == d;
    ParseNatToString(hidden);
  }

  /** The standards list as a page shows it: at most four entries, then one
      marker line counting the rest. */
  function ClipStandards(xs: seq<string>): (r: seq<string>)
    ensures |xs| <= StandardsShown ==> r == xs
    ensures |xs| > StandardsShown ==>
      && |r| == StandardsShown + 1
      && r[..StandardsShown] == xs[..StandardsShown]
      && MarkerCount(r[StandardsShown]) == Some(|xs| - StandardsShown)
  {
    if |xs| > StandardsShown then
      MarkerRoundTrip(|xs| - StandardsShown);
      xs[..StandardsShown] + [StandardsMarker(|xs| - StandardsShown)]
    else xs
  }

  /** The value the report shows for one session entry. */
  function DisplayValue(key: string, v: Value, apiKeySet: bool, reply: Reply): (r: Value)
    ensures key !in SummarizedFields && !(key == StandardsKey && v.Items?) ==> r == v
    ensures key == StandardsKey && v.Items? ==>
      && r.Items?
      && (|v.xs| <= StandardsShown ==> r == v)
      && (|v.xs| > StandardsShown ==>
            |r.xs| == StandardsShown + 1 && r.xs[..StandardsShown] == v.xs[..StandardsShown]
            && MarkerCount(r.xs[StandardsShown]) == Some(|v.xs| - StandardsShown))
    ensures key in SummarizedFields && (!v.Text? || |v.s| <= DefaultMaxChars) ==> r == v
    ensures Iterable(v) ==> Iterable(r)
  {
    if key in SummarizedFields then Summarize(v, DefaultMaxChars, apiKeySet, reply)
    else if key == StandardsKey && v.Items? then Items(ClipStandards(v.xs))
    else v
  }

  /** The whole prepared record; `replies(k)` is the service's answer to the
      summarisation request for field `k`. */
  function DisplayData(data: FormRecord, apiKeySet: bool, replies: string -> Reply): FormRecord {
    map k | k in data :: DisplayValue(k, data[k], apiKeySet, replies(k))
  }

  /** Fills the prepared record key by key, as the report builder's first loop does. */
  method PrepareDisplayData(data: FormRecord, apiKeySet: bool, replies: string -> Reply)
    returns (display: FormRecord)
    ensures display == DisplayData(data, apiKeySet, replies)
    ensures display.Keys == data.Keys
    ensures forall k :: k in data && k !in SummarizedFields && k != StandardsKey ==> display[k] == data[k]
  {
    display := map[];
    var pending := data.Keys;
    while pending != {}
      invariant pending <= data.Keys
      invariant display == DisplayedExcept(data, pending, apiKeySet, replies)
      decreases pending
    {
      var key :| key in pending;
      var value := data[key];
      var shown;
      if key in SummarizedFields {
        shown := Summarize(value, DefaultMaxChars, apiKeySet, replies(key));
      } else if key == StandardsKey && value.Items? {
        shown := Items(ClipStandards(value.xs));
      } else {
        shown := value;
      }
      DisplayedStep(data, pending, apiKeySet, replies, key);
      display := display[key := shown];
      pending := pending - {key};
    }
    assert DisplayedExcept(data, {}, apiKeySet, replies) == DisplayData(data, apiKeySet, replies);
  }

  /** The display values of the keys the loop has handled: those of `data` not in `pending`. */
  function DisplayedExcept(data: FormRecord, pending: set<string>, apiKeySet: bool, replies: string -> Reply): FormRecord {
    map k | k in data && k !in pending :: DisplayValue(k, data[k], apiKeySet, replies(k))
  }

  /** Handling one more key adds exactly its display value. */
  lemma DisplayedStep(data: FormRecord, pending: set<string>, apiKeySet: bool, replies: string -> Reply, key: string)
    requires key in pending && pending <= data.Keys
    ensures DisplayedExcept(data, pending - {key}, apiKeySet, replies)
      == DisplayedExcept(data, pending, apiKeySet, replies)[key := DisplayValue(key, data[key], apiKeySet, replies(key))]
  {
  }

  /** How a row turns its field into text: as it is, one item per line, or
      one bulleted item per line. */
  datatype RowKind = Plain | Lines | Bullets

  /** One entry of a page's static row table. */
  datatype RowSpec = RowSpec(title: string, key: string, kind: RowKind)

  /** A report row: the title cell and the content cell. */
  datatype Row = Row(title: string, content: string)

  const Page1Table: seq<RowSpec> := [
    RowSpec("🎯 탐구 질문", "project_title", Plain),
    RowSpec("📢 최종 결과물 공개", "public_product", Plain),
    RowSpec("📚 교과 성취기준", "selected_standards", Lines),
    RowSpec("💡 핵심역량", "selected_core_competencies", Bullets),
    RowSpec("🌱 사회정서 역량", "selected_sel_competencies", Bullets)
  ]

  const Page2Table: seq<RowSpec> := [
    RowSpec("🧭 지속적 탐구", "sustained_inquiry", Plain),
    RowSpec("📈 과정중심 평가", "process_assessment", Plain),
    RowSpec("🗣️ 학생의 의사 & 선택권", "student_voice_choice", Bullets),
    RowSpec("🔄 비평과 개선", "critique_revision", Plain),
    RowSpec("🤔 성찰", "reflection", Plain)
  ]

  /** The review screen's table of titles and fields, in its order. */
  const ReviewTable: seq<(string, string)> := [
    ("🎯 탐구 질문", "project_title"),
    ("📢 최종 결과물 공개", "public_product"),
    ("📚 교과 성취기준", "selected_standards"),
    ("💡 핵심역량", "selected_core_competencies"),
    ("🌱 사회정서 역량", "selected_sel_competencies"),
    ("🧭 지속적 탐구", "sustained_inquiry"),
    ("📈 과정중심 평가", "process_assessment"),
    ("🗣️ 학생의 의사 & 선택권", "student_voice_choice"),
    ("🔄 비평과 개선", "critique_revision"),
    ("🤔 성찰", "reflection")
  ]

  /** The report's two pages show the review screen's fields, under the same
      titles and in the same order. */
  lemma PagesFollowReviewTable()
    ensures |Page1Table| + |Page2Table| == |ReviewTable|
    ensures forall i :: 0 <= i < |Page1Table| ==>
      (Page1Table[i].title, Page1Table[i].key) == ReviewTable[i]
    ensures forall i :: 0 <= i < |Page2Table| ==>
      (Page2Table[i].title, Page2Table[i].key) == ReviewTable[|Page1Table| + i]
  {
  }

  /** True when every list row of `table` finds a value Python can iterate. */
  predicate RowsReadable(d: FormRecord, table: seq<RowSpec>) {
    forall i :: 0 <= i < |table| && table[i].kind != Plain && table[i].key in d ==> Iterable(d[table[i].key])
  }

  /** `"• " + item` for each item. */
  function Bulleted(xs: seq<string>): (r: seq<string>)
    ensures |r| == |xs| && forall i :: 0 <= i < |r| ==> r[i] == "• " + xs[i]
  {
    seq(|xs|, i requires 0 <= i < |xs| => "• " + xs[i])
  }

  /** The content cell of one row: a missing text field reads as "", a missing
      list field as the empty list. */
  function Content(d: FormRecord, spec: RowSpec): (r: string)
    requires spec.kind != Plain && spec.key in d ==> Iterable(d[spec.key])
    ensures spec.key !in d ==> r == ""
    ensures spec.kind == Plain && spec.key in d ==> r == PyStr(d[spec.key])
    ensures spec.kind != Plain && spec.key in d && Elements(d[spec.key]) == [] ==> r == ""
  {
    match spec.kind
    case Plain => if spec.key in d then PyStr(d[spec.key]) else ""
    case Lines => if spec.key in d then Join("\n", Elements(d[spec.key])) else ""
    case Bullets => if spec.key in d then Join("\n", Bulleted(Elements(d[spec.key]))) else ""
  }

  /** The rows of one page, in table order. */
  function BuildRows(d: FormRecord, table: seq<RowSpec>): (rows: seq<Row>)
    requires RowsReadable(d, table)
    ensures |rows| == |table|
    ensures forall i :: 0 <= i < |rows| ==> rows[i].title == table[i].title
  {
    seq(|table|, i requires 0 <= i < |table| => Row(table[i].title, Content(d, table[i])))
  }

  /** A list cell read line by line gives back its items, each behind a
      bullet in a bullet row, as long as no item holds a line break. */
  lemma ListCellLines(d: FormRecord, spec: RowSpec)
    requires spec.kind != Plain && spec.key in d && Iterable(d[spec.key])
    requires Elements(d[spec.key]) != []
    requires forall i :: 0 <= i < |Elements(d[spec.key])| ==> '\n' !in Elements(d[spec.key])[i]
    ensures Split(Content(d, spec), '\n')
         == if spec.kind == Lines then Elements(d[spec.key]) else Bulleted(Elements(d[spec.key]))
  {
    var items := Elements(d[spec.key]);
    var lines := if spec.kind == Lines then items else Bulleted(items);
    forall i | 0 <= i < |lines| ensures '\n' !in lines[i] {
      if spec.kind == Bullets {
        assert lines[i] == "• " + items[i];
      }
    }
    SplitJoin(lines, '\n');
  }

  /** Row `i` of a page carries its table title; its content cell is "" when
      the field is missing or an empty list, the field's `str` in a text row,
      and, read line by line, the field's items (bulleted in a bullet row) in
      a list row whose items hold no line break. */
  lemma RowReads(d: FormRecord, table: seq<RowSpec>, i: int)
    requires RowsReadable(d, table) && 0 <= i < |table|
    requires table[i].kind != Plain && table[i].key in d ==>
      forall j :: 0 <= j < |Elements(d[table[i].key])| ==> '\n' !in Elements(d[table[i].key])[j]
    ensures var row, spec := BuildRows(d, table)[i], table[i];
      && row.title == spec.title
      && (spec.key !in d ==> row.content == "")
      && (spec.kind == Plain && spec.key in d ==> row.content == PyStr(d[spec.key]))
      && (spec.kind != Plain && spec.key in d && Elements(d[spec.key]) == [] ==> row.content == "")
      && (spec.kind != Plain && spec.key in d && Elements(d[spec.key]) != [] ==>
            Split(row.content, '\n')
            == if spec.kind == Lines then Elements(d[spec.key]) else Bulleted(Elements(d[spec.key])))
  {
    var spec := table[i];
    if spec.kind != Plain && spec.key in d && Elements(d[spec.key]) != [] {
      ListCellLines(d, spec);
    }
  }

  /** Preparing the record does not change which values can be iterated. */
  lemma DisplayKeepsRowsReadable(data: FormRecord, apiKeySet: bool, replies: string -> Reply, table: seq<RowSpec>)
    requires RowsReadable(data, table)
    ensures RowsReadable(DisplayData(data, apiKeySet, replies), table)
  {
    var d := DisplayData(data, apiKeySet, replies);
    forall i | 0 <= i < |table| && table[i].kind != Plain && table[i].key in d
      ensures Iterable(d[table[i].key])
    {
      var k := table[i].key;
      assert d[k] == DisplayValue(k, data[k], apiKeySet, replies(k));
    }
  }

  /** The standards cell of page 1, read line by line, lists the first four
      standards and then the marker for the rest (when no standard contains a
      line break). */
  lemma StandardsCellShowsFourAndMarker(data: FormRecord, apiKeySet: bool, replies: string -> Reply, xs: seq<string>)
    requires RowsReadable(data, Page1Table)
    requires StandardsKey in data && data[StandardsKey] == Items(xs)
    requires |xs| > StandardsShown
    requires forall i :: 0 <= i < |xs| ==> '\n' !in xs[i]
    ensures RowsReadable(DisplayData(data, apiKeySet, replies), Page1Table)
    ensures Split(BuildRows(DisplayData(data, apiKeySet, replies), Page1Table)[2].content, '\n')
         == xs[..StandardsShown] + [StandardsMarker(|xs| - StandardsShown)]
  {
    DisplayKeepsRowsReadable(data, apiKeySet, replies, Page1Table);
    var d := DisplayData(data, apiKeySet, replies);
    var shown := xs[..StandardsShown] + [StandardsMarker(|xs| - StandardsShown)];
    assert d[StandardsKey] == Items(shown);
    assert BuildRows(d, Page1Table)[2].content == Join("\n", shown);
    var m := StandardsMarker(|xs| - StandardsShown);
    assert '\n' !in m;
    SplitJoin(shown, '\n');
  }

  /** A long "sustained inquiry" answer reaches page 2 as its first 400
      characters and "..." when no API key is configured. */
  lemma InquiryCellUsesFallback(data: FormRecord, replies: string -> Reply, s: string)
    requires RowsReadable(data, Page2Table)
    requires "sustained_inquiry" in data && data["sustained_inquiry"] == Text(s)
    requires |s| > DefaultMaxChars
    ensures RowsReadable(DisplayData(data, false, replies), Page2Table)
    ensures BuildRows(DisplayData(data, false, replies), Page2Table)[0].content
         == s[..DefaultMaxChars] + Ellipsis
  {
    DisplayKeepsRowsReadable(data, false, replies, Page2Table);
  }
}
