/** The side panel of components/form-builder/question-editor.tsx. Every
    control turns a user edit into a partial update of the question (a
    `Patch`) and hands it to the builder, which merges it by id. */
module QuestionEditor {
  import opened JsValues
  import opened Questions

  /** `question.options || []`: a missing list counts as empty. */
  function OptionsOf(q: QuestionConfig): seq<string> {
    q.options.GetOr([])
  }

  /** The label a new option gets: `خيار n`. */
  function OptionLabel(n: int): string {
    "خيار " + IntToString(n)
  }

  /** The names of the fields an update sets. */
  function FieldsNamed(p: Patch): set<string> {
    (if p.id.Some? then {"id"} else {})
    + (if p.qtype.Some? then {"type"} else {})
    + (if p.title.Some? then {"title"} else {})
    + (if p.description.Some? then {"description"} else {})
    + (if p.required.Some? then {"required"} else {})
    + (if p.options.Some? then {"options"} else {})
    + (if p.minValue.Some? then {"minValue"} else {})
    + (if p.maxValue.Some? then {"maxValue"} else {})
    + (if p.placeholder.Some? then {"placeholder"} else {})
    + (if p.allowedFileTypes.Some? then {"allowedFileTypes"} else {})
    + (if p.maxFileSize.Some? then {"maxFileSize"} else {})
  }

  // ---------------------------------------------------------------------
  // The option list

  /** `addOption`: the old options (none when missing) followed by the
      label numbered one past their count; only `options` is sent. */
  function AddOption(q: QuestionConfig): (p: Patch)
    ensures FieldsNamed(p) == {"options"}
    ensures var opts := OptionsOf(q);
      && p.options.Some? && |p.options.value| == |opts| + 1
      && p.options.value[..|opts|] == opts
      && p.options.value[|opts|] == OptionLabel(|opts| + 1)
  {
    var opts := OptionsOf(q);
    NoFields.(options := Some(opts + [OptionLabel(|opts| + 1)]))
  }

  /** `updateOption(index, value)`: copies the list, assigns one slot of
      the copy and sends the copy. The inputs that call it exist only for
      the present options, so `index` is one of theirs. */
  method UpdateOption(q: QuestionConfig, index: int, value: string) returns (p: Patch)
    requires 0 <= index < |OptionsOf(q)|
    ensures FieldsNamed(p) == {"options"}
    ensures var opts := OptionsOf(q);
      && p.options.Some? && |p.options.value| == |opts|
      && p.options.value[index] == value
      && forall i :: 0 <= i < |opts| && i != index ==> p.options.value[i] == opts[i]
  {
    var opts := OptionsOf(q);
    var copy := new string[|opts|](i requires 0 <= i < |opts| => opts[i]);
    copy[index] := value;
    p := NoFields.(options := Some(copy[..]));
  }

  /** `s.filter((_, i) => i !== index)`. */
  function RemoveAt(s: seq<string>, index: int): (r: seq<string>)
    ensures 0 <= index < |s| ==> r == s[..index] + s[index + 1..]
    ensures !(0 <= index < |s|) ==> r == s
    decreases |s|
  {
    if s == [] then []
    else
      var init := s[..|s| - 1];
      assert s == init + [s[|s| - 1]];
      RemoveAt(init, index) + (if index == |s| - 1 then [] else [s[|s| - 1]])
  }

  /** `deleteOption(index)`: the list without that position; only
      `options` is sent. */
  function DeleteOption(q: QuestionConfig, index: int): (p: Patch)
    ensures FieldsNamed(p) == {"options"}
    ensures var opts := OptionsOf(q);
      0 <= index < |opts| ==> p.options == Some(opts[..index] + opts[index + 1..])
  {
    NoFields.(options := Some(RemoveAt(OptionsOf(q), index)))
  }

  /** The delete buttons are disabled while `(options?.length || 0) <= 1`. */
  predicate DeleteDisabled(q: QuestionConfig) {
    (if q.options.Some? then |q.options.value| else 0) <= 1
  }

  /** With the buttons disabled at one option, a delete the editor lets
      through never empties a non-empty list: the list shrinks by exactly
      one and keeps at least one option. */
  lemma DeleteNeverEmpties(q: QuestionConfig, index: int)
    requires !DeleteDisabled(q) && 0 <= index < |OptionsOf(q)|
    ensures var opts := DeleteOption(q, index).options.value;
      |opts| == |OptionsOf(q)| - 1 >= 1
  {
  }

  /** `n` options labelled `خيار 1` … `خيار n`. */
  function Numbered(n: nat): (r: seq<string>)
    ensures |r| == n && forall i :: 0 <= i < n ==> r[i] == OptionLabel(i + 1)
  {
    seq(n, i => OptionLabel(i + 1))
  }

  /** The three options a new dropdown or checkbox question starts with are
      numbered exactly as the add button numbers them. */
  lemma DefaultOptionsNumbered()
    ensures DefaultOptions == Numbered(3)
  {
    assert IntToString(1) == "1" && IntToString(2) == "2" && IntToString(3) == "3";
    var ns := Numbered(3);
    assert ns[0] == OptionLabel(1) == "خيار 1";
    assert ns[1] == OptionLabel(2) == "خيار 2";
    assert ns[2] == OptionLabel(3) == "خيار 3";
  }

  /** Adding to a list numbered 1..n numbers the new option n+1, so a list
      only ever grown by the add button stays numbered 1..n+1. */
  lemma AddOptionKeepsNumbering(q: QuestionConfig, n: nat)
    requires OptionsOf(q) == Numbered(n)
    ensures AddOption(q).options == Some(Numbered(n + 1))
  {
    var r := AddOption(q).options.value;
    var m := Numbered(n + 1);
    assert |r| == |m|;
    forall i | 0 <= i < n + 1 ensures r[i] == m[i] {
      if i < n {
        assert r[i] == r[..n][i] == Numbered(n)[i];
      }
    }
    assert r == m;
  }

  // ---------------------------------------------------------------------
  // The numeric fields

  /** `parseInt(text) || d`: NaN and 0 are falsy and give the default. */
  function ParsedOrDefault(text: string, d: int): (r: int)
    ensures ParseInt(text).Some? && ParseInt(text).value != 0 ==> r == ParseInt(text).value
    ensures ParseInt(text).None? || ParseInt(text) == Some(0) ==> r == d
  {
    match ParseInt(text)
    case Some(v) => if v != 0 then v else d
    case None => d
  }

  /** A field that holds a number typed as text reads back the number it
      shows, except that 0 falls back to the default. */
  lemma ParsedOrDefaultOfNumber(n: int, d: int)
    ensures ParsedOrDefault(IntToString(n), d) == if n == 0 then d else n
  {
    ParseIntOfString(n);
  }

  /** The number inputs of the panel, one per cited line. */
  datatype NumberInput =
    | RatingMin        // line 148, default 1
    | RatingMax        // line 160, default 5
    | OpinionMin       // line 180, default 1
    | OpinionMax       // line 192, default 10
    | MaxFileSizeInput // line 214, default 10

  function DefaultOf(input: NumberInput): (d: int)
    ensures d > 0
  {
    match input
    case RatingMin => 1
    case RatingMax => 5
    case OpinionMin => 1
    case OpinionMax => 10
    case MaxFileSizeInput => 10
  }

  /** The update a number input emits: its own field, holding the parsed
      value or the default, and never 0. */
  function NumberUpdate(input: NumberInput, text: string): (p: Patch)
    ensures FieldsNamed(p) ==
      if input == MaxFileSizeInput then {"maxFileSize"}
      else if input == RatingMin || input == OpinionMin then {"minValue"}
      else {"maxValue"}
    ensures var v := ParsedOrDefault(text, DefaultOf(input));
      && (p.minValue == Some(v) || p.maxValue == Some(v) || p.maxFileSize == Some(v))
      && v != 0
  {
    var v := ParsedOrDefault(text, DefaultOf(input));
    match input
    case RatingMin => NoFields.(minValue := Some(v))
    case OpinionMin => NoFields.(minValue := Some(v))
    case RatingMax => NoFields.(maxValue := Some(v))
    case OpinionMax => NoFields.(maxValue := Some(v))
    case MaxFileSizeInput => NoFields.(maxFileSize := Some(v))
  }

  /** The opinion-scale minimum input offers 0 and 1, yet typing 0 stores
      1: the `|| 1` fallback treats the number 0 like NaN. */
  lemma OpinionMinZeroBecomesOne()
    ensures NumberUpdate(OpinionMin, "0").minValue == Some(1)
  {
    ParsedOrDefaultOfNumber(0, 1);
    assert IntToString(0) == "0";
  }

  /** The fallback as evidently intended: only text that is not a number
      gives the default, and every number, 0 included, is kept. */
  function ParsedOrDefaultFixed(text: string, d: int): (r: int)
    ensures ParseInt(text).Some? ==> r == ParseInt(text).value
    ensures ParseInt(text).None? ==> r == d
  {
    match ParseInt(text)
    case Some(v) => v
    case None => d
  }

  /** The update a number input emits with the intended fallback. */
  function FixedNumberUpdate(input: NumberInput, text: string): (p: Patch)
    ensures FieldsNamed(p) == FieldsNamed(NumberUpdate(input, text))
  {
    var v := ParsedOrDefaultFixed(text, DefaultOf(input));
    match input
    case RatingMin => NoFields.(minValue := Some(v))
    case OpinionMin => NoFields.(minValue := Some(v))
    case RatingMax => NoFields.(maxValue := Some(v))
    case OpinionMax => NoFields.(maxValue := Some(v))
    case MaxFileSizeInput => NoFields.(maxFileSize := Some(v))
  }

  /** With the intended fallback every number typed into an input is the
      number stored, 0 included, so the opinion scale can start at 0. */
  lemma FixedNumberUpdateKeepsNumber(input: NumberInput, n: int)
    ensures var p := FixedNumberUpdate(input, IntToString(n));
      p.minValue == Some(n) || p.maxValue == Some(n) || p.maxFileSize == Some(n)
    ensures FixedNumberUpdate(OpinionMin, "0").minValue == Some(0)
  {
    ParseIntOfString(n);
    ParseIntOfString(0);
    assert IntToString(0) == "0";
  }

  // ---------------------------------------------------------------------
  // The text controls and the required switch

  datatype TextControl =
    | TitleInput(text: string)
    | DescriptionInput(text: string)
    | PlaceholderInput(text: string)
    | RequiredSwitch(checked: bool)

  /** The update a control emits. */
  function ControlUpdate(c: TextControl): (p: Patch)
    ensures FieldsNamed(p) == match c
      case TitleInput(_) => {"title"}
      case DescriptionInput(_) => {"description"}
      case PlaceholderInput(_) => {"placeholder"}
      case RequiredSwitch(_) => {"required"}
  {
    match c
    case TitleInput(t) => NoFields.(title := Some(t))
    case DescriptionInput(t) => NoFields.(description := Some(t))
    case PlaceholderInput(t) => NoFields.(placeholder := Some(t))
    case RequiredSwitch(b) => NoFields.(required := Some(b))
  }

  /** Merged into the question, a control's update sets that one field to
      the control's value and leaves every other field as it was. */
  lemma ControlChangesOnlyItsField(q: QuestionConfig, c: TextControl)
    ensures Merge(q, ControlUpdate(c)) == match c
      case TitleInput(t) => q.(title := t)
      case DescriptionInput(t) => q.(description := Some(t))
      case PlaceholderInput(t) => q.(placeholder := Some(t))
      case RequiredSwitch(b) => q.(required := b)
  {
  }

  /** The same holds for every option edit: only `options` changes. */
  lemma OptionEditsChangeOnlyOptions(q: QuestionConfig, index: int)
    ensures Merge(q, AddOption(q)) == q.(options := AddOption(q).options)
    ensures Merge(q, DeleteOption(q, index)) == q.(options := DeleteOption(q, index).options)
  {
  }
}
