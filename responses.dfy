/** The response table of components/responses/responses-dashboard.tsx:
    how an answer is classified and shown, the search filter, the local
    delete after the store confirms it, and the CSV export. */
module Responses {
  import opened JsValues
  import opened Seqs
  import opened Questions
  import Csv

  /** One stored response: its id, its submission time as stored, and its
      answers keyed by question id. */
  datatype Response = Response(id: string, submittedAt: string, answers: map<string, Json>)

  /** `answers[id]`: the answer, or `undefined` (None) when there is none. */
  function AnswerTo(r: Response, id: string): Option<Json> {
    if id in r.answers then Some(r.answers[id]) else None
  }

  // ---------------------------------------------------------------------
  // Answers

  predicate HasStringField(members: seq<Member>, key: string) {
    Field(members, key).Some? && Field(members, key).value.JStr?
  }

  /** `isFileUpload`: an object (not null, not an array) with a string
      `name` and a string `url` or a string `data`. */
  predicate IsFileUpload(a: Json) {
    if !a.JObj? then false
    else HasStringField(a.members, "name")
         && (HasStringField(a.members, "url") || HasStringField(a.members, "data"))
  }

  /** The uploaded-file record an answer stands for (`FileUpload`). */
  datatype UploadedFile = UploadedFile(name: string, url: Option<string>, data: Option<string>)

  function StringField(members: seq<Member>, key: string): Option<string> {
    if HasStringField(members, key) then Some(Field(members, key).value.s) else None
  }

  /** `asFileUpload(answer)`, read on an answer that passed the test. */
  function AsFileUpload(a: Json): (f: UploadedFile)
    requires IsFileUpload(a)
    ensures f.url.Some? || f.data.Some?
    ensures Field(a.members, "name") == Some(JStr(f.name))
  {
    UploadedFile(Field(a.members, "name").value.s, StringField(a.members, "url"), StringField(a.members, "data"))
  }

  /** `file.url || file.data || ''`: the stored link is preferred to the
      inline data, and an empty one counts as missing. */
  function GetFileUrl(f: UploadedFile): (r: string)
    ensures f.url.Some? && f.url.value != "" ==> r == f.url.value
    ensures (f.url.None? || f.url.value == "") && f.data.Some? && f.data.value != "" ==> r == f.data.value
    ensures r == "" <==> (f.url.None? || f.url.value == "") && (f.data.None? || f.data.value == "")
  {
    if f.url.Some? && f.url.value != "" then f.url.value
    else if f.data.Some? && f.data.value != "" then f.data.value
    else ""
  }

  /** A file answer whose link or data is non-empty yields a non-empty
      address, and that address is one the answer carries. */
  lemma FileUrlOfUpload(a: Json)
    requires IsFileUpload(a)
    ensures var f := AsFileUpload(a);
      var r := GetFileUrl(f);
      (r != "" <==> (f.url.Some? && f.url.value != "") || (f.data.Some? && f.data.value != ""))
      && (r != "" ==> Some(r) == f.url || Some(r) == f.data)
  {
  }

  const Yes: string := "نعم"
  const No: string := "لا"

  /** `formatAnswer`: how a cell of the table and of the export shows an
      answer. A missing answer (None) or null is "-", a boolean is yes or
      no, an array is its elements joined with ", ", a file is its name,
      another object is its JSON text, and anything else is `String(x)`. */
  function FormatAnswer(a: Option<Json>): (r: string)
    ensures a.None? || a == Some(JNull) ==> r == "-"
    ensures a == Some(JBool(true)) ==> r == Yes
    ensures a == Some(JBool(false)) ==> r == No
    ensures a.Some? && IsFileUpload(a.value) ==> r == AsFileUpload(a.value).name
    ensures a.Some? && a.value.JArr? ==> r == JoinValues(a.value.elems, ", ")
    ensures a.Some? && a.value.JObj? && !IsFileUpload(a.value) ==> r == Stringify(a.value)
    ensures a.Some? && (a.value.JInt? || a.value.JStr?) ==> r == ToStr(a.value)
  {
    match a
    case None => "-"
    case Some(v) =>
      match v
      case JNull => "-"
      case JBool(b) => if b then Yes else No
      case JArr(es) => JoinValues(es, ", ")
      case JObj(ms) => if IsFileUpload(v) then Field(ms, "name").value.s else Stringify(v)
      case _ => ToStr(v)
  }

  /** Text answers show as typed, and a number shows as digits that read
      back as that number. */
  lemma FormatAnswerReadsBack(s: string, n: int)
    ensures FormatAnswer(Some(JStr(s))) == s
    ensures ParseInt(FormatAnswer(Some(JInt(n)))) == Some(n)
  {
    assert FormatAnswer(Some(JInt(n))) == ToStr(JInt(n)) == IntToString(n);
    ParseIntOfString(n);
  }

  /** A list of texts, as a checkbox answer holds, shows as those texts
      separated by ", ". */
  lemma FormatAnswerOfTexts(ss: seq<string>)
    ensures FormatAnswer(Some(JArr(seq(|ss|, i requires 0 <= i < |ss| => JStr(ss[i]))))) == Join(ss, ", ")
  {
    var es := seq(|ss|, i requires 0 <= i < |ss| => JStr(ss[i]));
    var texts := seq(|es|, i requires 0 <= i < |es| => if es[i].JNull? then "" else ToStr(es[i]));
    forall i | 0 <= i < |ss| ensures texts[i] == ss[i] {
      assert es[i] == JStr(ss[i]);
    }
    assert texts == ss;
  }

  /** Two chosen options `x` and `y` show as `x, y`. */
  lemma FormatAnswerOfTwo(x: string, y: string)
    ensures FormatAnswer(Some(JArr([JStr(x), JStr(y)]))) == x + ", " + y
  {
    var ss := [x, y];
    FormatAnswerOfTexts(ss);
    assert seq(|ss|, i requires 0 <= i < |ss| => JStr(ss[i])) == [JStr(x), JStr(y)];
    assert ss[1..] == [y];
  }

  // ---------------------------------------------------------------------
  // Search

  /** Some answer of `r`, formatted and lower-cased, contains the
      lower-cased query. */
  predicate MatchesQuery(r: Response, query: string) {
    exists k :: k in r.answers && Includes(Lower(FormatAnswer(Some(r.answers[k]))), Lower(query))
  }

  function Matching(query: string): Response -> bool {
    r => MatchesQuery(r, query)
  }

  /** `filteredResponses`: a query that trims to nothing keeps every
      response; otherwise the responses that match it, in their order. The
      query is lower-cased but not trimmed. */
  function Search(responses: seq<Response>, query: string): (r: seq<Response>)
    ensures IsBlank(query) ==> r == responses
    ensures !IsBlank(query) ==> r == Select(responses, Matching(query))
    ensures !IsBlank(query) ==> forall i :: 0 <= i < |r| ==> r[i] in responses && MatchesQuery(r[i], query)
    ensures !IsBlank(query) ==> forall i :: 0 <= i < |responses| && MatchesQuery(responses[i], query) ==> responses[i] in r
  {
    TrimEmptyIffBlank(query);
    if Trim(query) == "" then responses else Select(responses, Matching(query))
  }

  /** The search ignores the case of the query. */
  lemma SearchIgnoresQueryCase(responses: seq<Response>, query: string)
    ensures Search(responses, Lower(query)) == Search(responses, query)
  {
    LowerProperties(query);
    SelectSame(responses, Matching(Lower(query)), Matching(query));
  }

  /** A response with a text answer that contains the query, ignoring
      case, is among the results. */
  lemma SearchFindsTextAnswer(responses: seq<Response>, query: string, i: int, k: string, s: string)
    requires 0 <= i < |responses| && k in responses[i].answers && responses[i].answers[k] == JStr(s)
    requires Includes(Lower(s), Lower(query))
    ensures responses[i] in Search(responses, query)
  {
    FormatAnswerReadsBack(s, 0);
    assert MatchesQuery(responses[i], query);
  }

  // ---------------------------------------------------------------------
  // Export

  const DateHeader: string := "تاريخ التقديم"
  const Untitled: string := "بدون عنوان"

  /** The header: the date column, then each question's title, with
      `بدون عنوان` for an empty one. */
  function HeaderCells(questions: seq<QuestionConfig>): (h: seq<string>)
    ensures |h| == 1 + |questions| && h[0] == DateHeader
    ensures forall i :: 0 <= i < |questions| ==> h[i + 1] == if questions[i].title == "" then Untitled else questions[i].title
  {
    [DateHeader] + seq(|questions|, i requires 0 <= i < |questions| =>
      if questions[i].title == "" then Untitled else questions[i].title)
  }

  /** One response: its formatted date, then its formatted answer to each
      question. The locale date format is a parameter. */
  function RowCells(r: Response, questions: seq<QuestionConfig>, formatDate: string -> string): (row: seq<string>)
    ensures |row| == 1 + |questions| && row[0] == formatDate(r.submittedAt)
    ensures forall i :: 0 <= i < |questions| ==> row[i + 1] == FormatAnswer(AnswerTo(r, questions[i].id))
  {
    [formatDate(r.submittedAt)] + seq(|questions|, i requires 0 <= i < |questions| =>
      FormatAnswer(AnswerTo(r, questions[i].id)))
  }

  function ExportRecords(questions: seq<QuestionConfig>, responses: seq<Response>, formatDate: string -> string): (recs: seq<seq<string>>)
    ensures |recs| == 1 + |responses| && recs[0] == HeaderCells(questions)
    ensures forall i :: 0 <= i < |responses| ==> recs[i + 1] == RowCells(responses[i], questions, formatDate)
    ensures forall i :: 0 <= i < |recs| ==> |recs[i]| == 1 + |questions|
  {
    [HeaderCells(questions)] + seq(|responses|, i requires 0 <= i < |responses| => RowCells(responses[i], questions, formatDate))
  }

  /** `exportToCSV`: no file when there are no responses; otherwise the
      document of the header and one record per response. */
  function ExportCsv(questions: seq<QuestionConfig>, responses: seq<Response>, formatDate: string -> string): (doc: Option<string>)
    ensures doc.None? <==> responses == []
  {
    if responses == [] then None
    else Some(Csv.Document(ExportRecords(questions, responses, formatDate)))
  }

  /** Reading an exported file back gives exactly its records: the header
      and then, in order, each response's date and answers (the contract
      of ExportRecords spells these out). */
  lemma ExportReadsBack(questions: seq<QuestionConfig>, responses: seq<Response>, formatDate: string -> string)
    requires responses != []
    ensures Csv.Parse(ExportCsv(questions, responses, formatDate).value) == Some(ExportRecords(questions, responses, formatDate))
  {
    var records := ExportRecords(questions, responses, formatDate);
    assert ExportCsv(questions, responses, formatDate).value == Csv.Document(records);
    Csv.ParseDocument(records);
  }

  // ---------------------------------------------------------------------
  // The table state

  function IdIsNot(id: string): Response -> bool {
    (r: Response) => r.id != id
  }

  class ResponsesTable {
    var responses: seq<Response>
    var deleteDialogOpen: bool
    var responseToDelete: Option<string>

    constructor (initial: seq<Response>)
      ensures responses == initial && !deleteDialogOpen && responseToDelete == None
    {
      responses := initial;
      deleteDialogOpen := false;
      responseToDelete := None;
    }

    /** The row menu's delete item: remembers the response and opens the
        confirmation dialog. */
    method RequestDelete(id: string)
      modifies this
      ensures responseToDelete == Some(id) && deleteDialogOpen && responses == old(responses)
    {
      responseToDelete := Some(id);
      deleteDialogOpen := true;
    }

    /** The dialog's cancel button closes it and keeps the target. */
    method CancelDelete()
      modifies this
      ensures !deleteDialogOpen && responseToDelete == old(responseToDelete) && responses == old(responses)
    {
      deleteDialogOpen := false;
    }

    /** `handleDelete`, with the store's answer as `ok`. Without a target
        (none, or the empty id, which is falsy) nothing happens. Otherwise
        a confirmed delete removes exactly the responses with that id and
        keeps the rest in order, a failed one keeps the list, and either way
        the dialog closes and the target is forgotten. */
    method HandleDelete(ok: bool)
      modifies this
      ensures old(responseToDelete).None? || old(responseToDelete) == Some("") ==>
        responses == old(responses) && deleteDialogOpen == old(deleteDialogOpen)
        && responseToDelete == old(responseToDelete)
      ensures old(responseToDelete).Some? && old(responseToDelete) != Some("") ==>
        && responses == (if ok then Select(old(responses), IdIsNot(old(responseToDelete).value)) else old(responses))
        && !deleteDialogOpen && responseToDelete == None
    {
      if responseToDelete.None? || responseToDelete == Some("") {
        return;
      }
      var target := responseToDelete.value;
      if ok {
        responses := Select(responses, IdIsNot(target));
      }
      deleteDialogOpen := false;
      responseToDelete := None;
    }
  }

  /** After a confirmed delete no response with that id is left, and every
      other response is still there. */
  lemma DeleteRemovesExactly(rs: seq<Response>, id: string)
    ensures forall i :: 0 <= i < |Select(rs, IdIsNot(id))| ==> Select(rs, IdIsNot(id))[i].id != id
    ensures forall i :: 0 <= i < |rs| && rs[i].id != id ==> rs[i] in Select(rs, IdIsNot(id))
  {
  }
}
