/** The edit state of components/form-builder/form-builder.tsx: the form
    being edited, its question list, the selected question and the
    unsaved-changes flag, with the handlers that change them. The store
    call of a save or publish is replaced by its outcome, `ok`. */
module FormBuilder {
  import opened JsValues
  import opened Questions
  import opened Seqs
  import Themes

  datatype FormStatus = Draft | Published | Closed

  /** The form row the builder was opened with, as far as it reads it. */
  datatype Form = Form(
    id: string,
    title: string,
    description: Option<string>,
    slug: string,
    status: FormStatus,
    theme: string,
    thankYouMessage: string,
    questions: Option<seq<QuestionConfig>>)

  /** The `updateData` object a save or publish sends for the form; a save
      sends no status. */
  datatype FormUpdate = FormUpdate(
    status: Option<FormStatus>,
    title: string,
    description: Option<string>,
    slug: string,
    theme: string,
    questions: seq<QuestionConfig>,
    thankYouMessage: string)

  /** The status a successful publish moves to: a published form closes,
      a draft or closed form is published. */
  function ToggledStatus(s: FormStatus): (r: FormStatus)
    ensures r != s
    ensures r == Closed <==> s == Published
    ensures r == Published <==> s != Published
  {
    if s == Published then Closed else Published
  }

  // ---------------------------------------------------------------------
  // The list transforms inside the handlers

  /** `qs.map(q => q.id === id ? { ...q, ...updates } : q)`. */
  function UpdateById(qs: seq<QuestionConfig>, id: string, updates: Patch): (r: seq<QuestionConfig>)
    ensures |r| == |qs|
    ensures forall i :: 0 <= i < |qs| && qs[i].id == id ==> r[i] == Merge(qs[i], updates)
    ensures forall i :: 0 <= i < |qs| && qs[i].id != id ==> r[i] == qs[i]
  {
    if qs == [] then []
    else
      var rest := UpdateById(qs[1..], id, updates);
      var r := [if qs[0].id == id then Merge(qs[0], updates) else qs[0]] + rest;
      assert forall i :: 1 <= i < |qs| ==> qs[i] == qs[1..][i - 1] && r[i] == rest[i - 1];
      r
  }

  /** The predicate `q => q.id !== id` of the delete filter. */
  function IdIsNot(id: string): QuestionConfig -> bool {
    (q: QuestionConfig) => q.id != id
  }

  /** `qs.find(q => q.id === id)`. */
  function FindById(qs: seq<QuestionConfig>, id: string): (r: Option<QuestionConfig>)
    ensures r.Some? ==> r.value in qs && r.value.id == id
    ensures r.Some? ==> exists i :: 0 <= i < |qs| && qs[i] == r.value && forall j :: 0 <= j < i ==> qs[j].id != id
    ensures r.None? <==> forall i :: 0 <= i < |qs| ==> qs[i].id != id
  {
    if qs == [] then None
    else if qs[0].id == id then Some(qs[0])
    else
      var r := FindById(qs[1..], id);
      assert forall i :: 1 <= i < |qs| ==> qs[i] == qs[1..][i - 1];
      if r.Some? then
        var k :| 0 <= k < |qs| - 1 && qs[1..][k] == r.value && forall j :: 0 <= j < k ==> qs[1..][j].id != id;
        assert qs[k + 1] == r.value && forall j :: 0 <= j < k + 1 ==> qs[j].id != id;
        r
      else r
  }

  /** A question appended under a fresh id is the one a lookup of that id
      finds. */
  lemma {:induction false} FindAppended(qs: seq<QuestionConfig>, q: QuestionConfig)
    requires forall i :: 0 <= i < |qs| ==> qs[i].id != q.id
    ensures FindById(qs + [q], q.id) == Some(q)
  {
    if qs != [] {
      assert (qs + [q])[1..] == qs[1..] + [q];
      FindAppended(qs[1..], q);
    }
  }

  /** Updating by id keeps every id when the update does not name one, so
      the selection still finds its question. */
  lemma UpdateKeepsIds(qs: seq<QuestionConfig>, id: string, updates: Patch)
    requires updates.id.None?
    ensures forall i :: 0 <= i < |qs| ==> UpdateById(qs, id, updates)[i].id == qs[i].id
  {
  }

  // ---------------------------------------------------------------------
  // The slug rule

  predicate IsSlugChar(c: char) {
    'a' <= c <= 'z' || '0' <= c <= '9' || c == '-'
  }

  /** What one character leaves in the slug: its lower-case form when that
      is a slug character, nothing otherwise. */
  function SlugPart(c: char): string {
    if IsSlugChar(LowerChar(c)) then [LowerChar(c)] else []
  }

  /** `value.toLowerCase().replace(/[^a-z0-9-]/g, '')`, read character by
      character: both stages act on each character alone. */
  function SanitizeSlug(s: string): (r: string)
    ensures forall i :: 0 <= i < |r| ==> IsSlugChar(r[i])
    ensures |r| <= |s|
  {
    if s == [] then [] else SlugPart(s[0]) + SanitizeSlug(s[1..])
  }

  /** Filtering a lower-cased text: the first character's part, then the
      rest filtered. */
  lemma LowerThenFilterCons(s: string)
    requires s != []
    ensures Select(Lower(s), IsSlugChar) == SlugPart(s[0]) + Select(Lower(s[1..]), IsSlugChar)
  {
    var c := LowerChar(s[0]);
    assert Lower(s) == [c] + Lower(s[1..]);
    SelectAppend([c], Lower(s[1..]), IsSlugChar);
    SelectSnoc([], c, IsSlugChar);
    assert [] + [c] == [c];
  }

  /** The rule is the source's two stages: lower-case the whole text, then
      remove every character outside `a-z`, `0-9` and `-`. */
  lemma {:induction false} SanitizeSlugIsLowerThenFilter(s: string)
    ensures SanitizeSlug(s) == Select(Lower(s), IsSlugChar)
  {
    if s != [] {
      LowerThenFilterCons(s);
      SanitizeSlugIsLowerThenFilter(s[1..]);
    }
  }

  /** A string made of slug characters passes the rule unchanged. */
  lemma {:induction false} SanitizeSlugKeepsSlugs(s: string)
    requires forall i :: 0 <= i < |s| ==> IsSlugChar(s[i])
    ensures SanitizeSlug(s) == s
  {
    if s != [] {
      SanitizeSlugKeepsSlugs(s[1..]);
      assert s == [s[0]] + s[1..];
    }
  }

  /** The rule works character by character: a text is sanitised piece by
      piece. */
  lemma {:induction false} SanitizeSlugAppend(a: string, b: string)
    ensures SanitizeSlug(a + b) == SanitizeSlug(a) + SanitizeSlug(b)
  {
    if a == [] {
      assert a + b == b;
    } else {
      assert (a + b)[1..] == a[1..] + b;
      SanitizeSlugAppend(a[1..], b);
    }
  }

  /** One character is lower-cased first, then kept exactly when its
      lower-case form is a slug character. */
  lemma SanitizeSlugChar(c: char)
    ensures SanitizeSlug([c]) == if IsSlugChar(LowerChar(c)) then [LowerChar(c)] else []
  {
    assert [c][1..] == [];
  }

  /** A form titled "My Form!" gets the slug "myform": the capitals are
      lower-cased, the space and the mark are dropped. */
  lemma SanitizeSlugExample()
    ensures SanitizeSlug("My Form!") == "myform"
  {
    assert LowerChar('M') == 'm' && LowerChar('F') == 'f';
  }

  /** Sanitising twice is sanitising once. */
  lemma SanitizeSlugIdempotent(s: string)
    ensures SanitizeSlug(SanitizeSlug(s)) == SanitizeSlug(s)
  {
    SanitizeSlugKeepsSlugs(SanitizeSlug(s));
  }

  // ---------------------------------------------------------------------
  // The builder

  class Builder {
    var form: Form
    var questions: seq<QuestionConfig>
    var selectedQuestionId: Option<string>
    var hasUnsavedChanges: bool

    /** The builder opens on a form: its questions (none when the column is
        null), nothing selected, nothing unsaved. */
    constructor (initial: Form)
      ensures form == initial && questions == initial.questions.GetOr([])
      ensures selectedQuestionId == None && !hasUnsavedChanges
    {
      form := initial;
      questions := initial.questions.GetOr([]);
      selectedQuestionId := None;
      hasUnsavedChanges := false;
    }

    /** `selectedQuestion`: the question the editor panel shows. */
    function SelectedQuestion(): (r: Option<QuestionConfig>)
      reads this
      ensures r.Some? ==> selectedQuestionId == Some(r.value.id) && r.value in questions
      ensures selectedQuestionId.None? ==> r.None?
      ensures selectedQuestionId.Some? && (exists i :: 0 <= i < |questions| && questions[i].id == selectedQuestionId.value) ==> r.Some?
    {
      if selectedQuestionId.None? then None else FindById(questions, selectedQuestionId.value)
    }

    /** `currentTheme`: the form's preset, or `minimal` when the stored
        theme names none. */
    function CurrentTheme(): (t: Themes.ThemeConfig)
      reads this
      ensures t in Themes.ThemeList
      ensures t.id == form.theme || t == Themes.Minimal
    {
      Themes.GetTheme(form.theme)
    }

    /** The `updateData` of a save: the editable fields and the question list. */
    function SaveData(): (u: FormUpdate)
      reads this
      ensures u.status.None? && u.questions == questions
    {
      FormUpdate(None, form.title, form.description, form.slug, form.theme, questions, form.thankYouMessage)
    }

    /** `handleSave`: sends the snapshot; only a successful store call
        clears the unsaved flag. Nothing else changes. */
    method Save(ok: bool) returns (sent: FormUpdate)
      modifies this
      ensures sent == old(SaveData())
      ensures form == old(form) && questions == old(questions)
      ensures selectedQuestionId == old(selectedQuestionId)
      ensures hasUnsavedChanges == (old(hasUnsavedChanges) && !ok)
    {
      sent := SaveData();
      if ok {
        hasUnsavedChanges := false;
      }
    }

    /** `handlePublish`: refused with an empty question list (nothing is
        sent, nothing changes); otherwise the snapshot goes out with the
        toggled status, and only on success does the form take that status
        and the unsaved flag clear. */
    method Publish(ok: bool) returns (sent: Option<FormUpdate>)
      modifies this
      ensures old(questions) == [] ==> sent == None
      ensures old(questions) != [] ==> sent == Some(old(SaveData()).(status := Some(ToggledStatus(old(form.status)))))
      ensures form == if old(questions) != [] && ok then old(form).(status := ToggledStatus(old(form.status))) else old(form)
      ensures hasUnsavedChanges == (old(hasUnsavedChanges) && !(old(questions) != [] && ok))
      ensures questions == old(questions) && selectedQuestionId == old(selectedQuestionId)
    {
      if questions == [] {
        return None;
      }
      var newStatus := ToggledStatus(form.status);
      sent := Some(SaveData().(status := Some(newStatus)));
      if ok {
        form := form.(status := newStatus);
        hasUnsavedChanges := false;
      }
    }

    /** `addQuestion(t)`, with the fresh UUID passed in: a default question
        of type `t` is appended and selected. */
    method AddQuestion(t: QuestionType, id: string)
      modifies this
      ensures questions == old(questions) + [CreateDefaultQuestion(t, id)]
      ensures selectedQuestionId == Some(id) && hasUnsavedChanges
      ensures form == old(form)
    {
      var q := CreateDefaultQuestion(t, id);
      questions := questions + [q];
      selectedQuestionId := Some(id);
      hasUnsavedChanges := true;
    }

    /** `updateQuestion(id, updates)`: a shallow merge into the entries with
        that id; every other entry stays as it was. */
    method UpdateQuestion(id: string, updates: Patch)
      modifies this
      ensures questions == UpdateById(old(questions), id, updates)
      ensures hasUnsavedChanges && form == old(form) && selectedQuestionId == old(selectedQuestionId)
    {
      questions := UpdateById(questions, id, updates);
      hasUnsavedChanges := true;
    }

    /** `deleteQuestion(id)`: the entries with that id go, the rest keep
        their order, and the selection clears exactly when it was that id. */
    method DeleteQuestion(id: string)
      modifies this
      ensures questions == Select(old(questions), IdIsNot(id))
      ensures forall i :: 0 <= i < |questions| ==> questions[i].id != id
      ensures forall i :: 0 <= i < |old(questions)| && old(questions)[i].id != id ==> old(questions)[i] in questions
      ensures selectedQuestionId == if old(selectedQuestionId) == Some(id) then None else old(selectedQuestionId)
      ensures hasUnsavedChanges && form == old(form)
    {
      questions := Select(questions, IdIsNot(id));
      if selectedQuestionId == Some(id) {
        selectedQuestionId := None;
      }
      hasUnsavedChanges := true;
    }

    /** `handleReorder(newOrder)`: the list the drag gesture produced
        replaces the old one. */
    method Reorder(newOrder: seq<QuestionConfig>)
      modifies this
      ensures questions == newOrder && hasUnsavedChanges
      ensures form == old(form) && selectedQuestionId == old(selectedQuestionId)
    {
      questions := newOrder;
      hasUnsavedChanges := true;
    }

    method SetTitle(title: string)
      modifies this
      ensures form == old(form).(title := title) && hasUnsavedChanges
      ensures questions == old(questions) && selectedQuestionId == old(selectedQuestionId)
    {
      form := form.(title := title);
      hasUnsavedChanges := true;
    }

    method SetTheme(theme: string)
      modifies this
      ensures form == old(form).(theme := theme) && hasUnsavedChanges
      ensures questions == old(questions) && selectedQuestionId == old(selectedQuestionId)
    {
      form := form.(theme := theme);
      hasUnsavedChanges := true;
    }

    /** The slug field stores its input through the slug rule. */
    method SetSlug(input: string)
      modifies this
      ensures form == old(form).(slug := SanitizeSlug(input)) && hasUnsavedChanges
      ensures forall i :: 0 <= i < |form.slug| ==> IsSlugChar(form.slug[i])
      ensures questions == old(questions) && selectedQuestionId == old(selectedQuestionId)
    {
      form := form.(slug := SanitizeSlug(input));
      hasUnsavedChanges := true;
    }

    method SetDescription(description: string)
      modifies this
      ensures form == old(form).(description := Some(description)) && hasUnsavedChanges
      ensures questions == old(questions) && selectedQuestionId == old(selectedQuestionId)
    {
      form := form.(description := Some(description));
      hasUnsavedChanges := true;
    }

    method SetThankYouMessage(message: string)
      modifies this
      ensures form == old(form).(thankYouMessage := message) && hasUnsavedChanges
      ensures questions == old(questions) && selectedQuestionId == old(selectedQuestionId)
    {
      form := form.(thankYouMessage := message);
      hasUnsavedChanges := true;
    }
  }

  /** After a delete the selected id, if any is left, is not the deleted one. */
  lemma DeletedQuestionNotFound(qs: seq<QuestionConfig>, id: string)
    ensures FindById(Select(qs, IdIsNot(id)), id) == None
  {
  }
}
