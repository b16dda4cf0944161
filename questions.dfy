/** The question-type registry of lib/questions.ts: the thirteen supported
    question kinds, each with a label, a description and the attributes a
    new question of that kind starts with. Icons are not modelled. */
module Questions {
  import opened JsValues

  /** The `type` of a question. Question lists are stored as JSON, so a
      question can carry a type string the registry does not know. */
  datatype QuestionType =
    | ShortText | LongText | Dropdown | Checkboxes | Email | Phone | Number
    | Date | Rating | OpinionScale | YesNo | FileUpload | Url
    | Unregistered(name: string)

  /** One question of a form (`QuestionConfig`). */
  datatype QuestionConfig = QuestionConfig(
    id: string,
    qtype: QuestionType,
    title: string,
    description: Option<string>,
    required: bool,
    options: Option<seq<string>>,
    minValue: Option<int>,
    maxValue: Option<int>,
    placeholder: Option<string>,
    allowedFileTypes: Option<seq<string>>,
    maxFileSize: Option<int>)

  /** `Partial<QuestionConfig>`: the fields an update names (Some) and the
      ones it leaves out (None). */
  datatype Patch = Patch(
    id: Option<string>,
    qtype: Option<QuestionType>,
    title: Option<string>,
    description: Option<string>,
    required: Option<bool>,
    options: Option<seq<string>>,
    minValue: Option<int>,
    maxValue: Option<int>,
    placeholder: Option<string>,
    allowedFileTypes: Option<seq<string>>,
    maxFileSize: Option<int>)

  /** The empty update `{}`. */
  const NoFields: Patch :=
    Patch(None, None, None, None, None, None, None, None, None, None, None)

  function Pick<T>(update: Option<T>, current: T): T {
    if update.Some? then update.value else current
  }

  function PickOpt<T>(update: Option<T>, current: Option<T>): Option<T> {
    if update.Some? then update else current
  }

  /** The object spread `{ ...q, ...p }`: every field `p` names replaces the
      one of `q`, every other field of `q` is kept. */
  function Merge(q: QuestionConfig, p: Patch): QuestionConfig {
    QuestionConfig(
      Pick(p.id, q.id),
      Pick(p.qtype, q.qtype),
      Pick(p.title, q.title),
      PickOpt(p.description, q.description),
      Pick(p.required, q.required),
      PickOpt(p.options, q.options),
      PickOpt(p.minValue, q.minValue),
      PickOpt(p.maxValue, q.maxValue),
      PickOpt(p.placeholder, q.placeholder),
      PickOpt(p.allowedFileTypes, q.allowedFileTypes),
      PickOpt(p.maxFileSize, q.maxFileSize))
  }

  /** One registry entry (`QuestionTypeInfo`, without its icon). */
  datatype TypeInfo = TypeInfo(qtype: QuestionType, displayLabel: string, description: string, defaultConfig: Patch)

  function PlaceholderDefault(text: string): Patch {
    NoFields.(placeholder := Some(text))
  }

  const AnswerHere: string := "اكتب إجابتك هنا..."
  const DefaultOptions: seq<string> := ["خيار 1", "خيار 2", "خيار 3"]

  /** The label the add-question dialog shows for each supported kind. */
  function DisplayLabel(t: QuestionType): string
    requires !t.Unregistered?
  {
    match t
    case ShortText => "نص قصير"
    case LongText => "نص طويل"
    case Dropdown => "قائمة منسدلة"
    case Checkboxes => "مربعات اختيار"
    case Email => "البريد الإلكتروني"
    case Phone => "الهاتف"
    case Number => "رقم"
    case Date => "التاريخ"
    case Rating => "التقييم"
    case OpinionScale => "مقياس الرأي"
    case YesNo => "نعم / لا"
    case FileUpload => "رفع ملف"
    case Url => "رابط الموقع"
  }

  /** The description under each label. */
  function Description(t: QuestionType): string
    requires !t.Unregistered?
  {
    match t
    case ShortText => "مدخل نصي من سطر واحد"
    case LongText => "مساحة نصية متعددة الأسطر"
    case Dropdown => "اختر خياراً واحداً من القائمة"
    case Checkboxes => "اختر خيارات متعددة من القائمة"
    case Email => "مدخل لعنوان البريد الإلكتروني"
    case Phone => "مدخل لرقم الهاتف"
    case Number => "مدخل رقمي"
    case Date => "اختيار التاريخ"
    case Rating => "تقييم بالنجوم (1-5)"
    case OpinionScale => "مقياس رقمي (1-10)"
    case YesNo => "خيار بسيط بنعم أو لا"
    case FileUpload => "رفع صور أو ملفات PDF"
    case Url => "مدخل رابط"
  }

  /** The `defaultConfig` of each supported kind. */
  function Defaults(t: QuestionType): Patch
    requires !t.Unregistered?
  {
    match t
    case ShortText => PlaceholderDefault(AnswerHere)
    case LongText => PlaceholderDefault(AnswerHere)
    case Dropdown => NoFields.(options := Some(DefaultOptions))
    case Checkboxes => NoFields.(options := Some(DefaultOptions))
    case Email => PlaceholderDefault("name@example.com")
    case Phone => PlaceholderDefault("+1 (555) 000-0000")
    case Number => PlaceholderDefault("0")
    case Date => NoFields
    case Rating => NoFields.(minValue := Some(1), maxValue := Some(5))
    case OpinionScale => NoFields.(minValue := Some(1), maxValue := Some(10))
    case YesNo => NoFields
    case FileUpload => NoFields.(allowedFileTypes := Some(["image/*", "application/pdf"]), maxFileSize := Some(10))
    case Url => PlaceholderDefault("https://example.com")
  }

  /** The registry entry of a supported kind. */
  function Entry(t: QuestionType): (e: TypeInfo)
    requires !t.Unregistered?
    ensures e.qtype == t
  {
    TypeInfo(t, DisplayLabel(t), Description(t), Defaults(t))
  }

  /** The supported kinds, in the order `questionTypes` lists them (the
      order of the add-question dialog). */
  const Kinds: seq<QuestionType> := [
    ShortText, LongText, Dropdown, Checkboxes, Email, Phone, Number,
    Date, Rating, OpinionScale, YesNo, FileUpload, Url
  ]

  /** `questionTypes`: the entry of each supported kind, in that order. */
  const QuestionTypes: seq<TypeInfo> := Entries()

  function Entries(): (r: seq<TypeInfo>)
    ensures |r| == |Kinds| && forall i :: 0 <= i < |Kinds| ==> r[i] == EntryAt(i)
  {
    seq(|Kinds|, EntryAt)
  }

  function EntryAt(i: int): TypeInfo
    requires 0 <= i < |Kinds|
  {
    Entry(Kinds[i])
  }

  /** `infos.find(qt => qt.type === t)`. */
  function Find(infos: seq<TypeInfo>, t: QuestionType): (r: Option<TypeInfo>)
    ensures r.Some? ==> r.value.qtype == t
  {
    if infos == [] then None
    else if infos[0].qtype == t then Some(infos[0])
    else Find(infos[1..], t)
  }

  /** Find comes back empty exactly when no entry has type `t`. */
  lemma {:induction false} FindMissing(infos: seq<TypeInfo>, t: QuestionType)
    ensures Find(infos, t).None? <==> forall i :: 0 <= i < |infos| ==> infos[i].qtype != t
  {
    if infos != [] && infos[0].qtype != t {
      FindMissing(infos[1..], t);
      assert forall i :: 1 <= i < |infos| ==> infos[i] == infos[1..][i - 1];
    }
  }

  /** `getQuestionTypeInfo(t)`: the registry entry of type `t`, or
      `undefined` (None) when there is none. */
  function GetQuestionTypeInfo(t: QuestionType): (r: Option<TypeInfo>)
    ensures r.Some? ==> r.value.qtype == t
  {
    Find(QuestionTypes, t)
  }

  /** Where each registered kind sits in the registry. */
  function IndexOf(t: QuestionType): (i: nat)
    requires !t.Unregistered?
    ensures i < |Kinds| && Kinds[i] == t
  {
    match t
    case ShortText => 0 case LongText => 1 case Dropdown => 2 case Checkboxes => 3
    case Email => 4 case Phone => 5 case Number => 6 case Date => 7 case Rating => 8
    case OpinionScale => 9 case YesNo => 10 case FileUpload => 11 case Url => 12
  }

  /** Every position of the registry holds the kind IndexOf puts there. */
  lemma IndexOfKinds(i: int)
    requires 0 <= i < |Kinds|
    ensures !Kinds[i].Unregistered? && IndexOf(Kinds[i]) == i
  {
  }

  /** The registry holds thirteen entries with pairwise different types. */
  lemma RegistryDistinct()
    ensures |QuestionTypes| == 13
    ensures forall i :: 0 <= i < |QuestionTypes| ==> QuestionTypes[i] == EntryAt(i)
    ensures forall i, j :: 0 <= i < j < |QuestionTypes| ==> QuestionTypes[i].qtype != QuestionTypes[j].qtype
  {
    forall i, j | 0 <= i < j < |QuestionTypes|
      ensures QuestionTypes[i].qtype != QuestionTypes[j].qtype
    {
      IndexOfKinds(i);
      IndexOfKinds(j);
    }
  }

  /** Exactly the thirteen named kinds are registered, each at its own entry. */
  lemma RegisteredKinds(t: QuestionType)
    ensures GetQuestionTypeInfo(t).Some? <==> !t.Unregistered?
    ensures !t.Unregistered? ==> GetQuestionTypeInfo(t) == Some(Entry(t))
  {
    if t.Unregistered? {
      UnregisteredMissing(t);
    } else {
      RegistryDistinct();
      FindFirst(QuestionTypes, t, IndexOf(t));
    }
  }

  lemma UnregisteredMissing(t: QuestionType)
    requires t.Unregistered?
    ensures GetQuestionTypeInfo(t).None?
  {
    forall i | 0 <= i < |QuestionTypes| ensures QuestionTypes[i].qtype != t {
      IndexOfKinds(i);
    }
    FindMissing(QuestionTypes, t);
  }

  /** Find returns the first entry of type `t`. */
  lemma {:induction false} FindFirst(infos: seq<TypeInfo>, t: QuestionType, k: int)
    requires 0 <= k < |infos| && infos[k].qtype == t
    requires forall j :: 0 <= j < k ==> infos[j].qtype != t
    ensures Find(infos, t) == Some(infos[k])
    decreases k
  {
    if k > 0 {
      assert infos[0].qtype != t;
      FindFirst(infos[1..], t, k - 1);
    }
  }

  /** No registry default names a base field of a question. */
  lemma DefaultsLeaveBaseFields(t: QuestionType)
    ensures var p := DefaultConfig(t);
      p.id.None? && p.qtype.None? && p.title.None? && p.description.None? && p.required.None?
  {
    DefaultConfigIs(t);
  }

  /** The type-specific attributes `createDefaultQuestion` spreads in:
      the entry's `defaultConfig`, or none for an unregistered type. */
  function DefaultConfig(t: QuestionType): Patch {
    match GetQuestionTypeInfo(t)
    case None => NoFields
    case Some(info) => info.defaultConfig
  }

  /** The spread defaults are the kind's own, and nothing for a type the
      registry does not know. */
  lemma DefaultConfigIs(t: QuestionType)
    ensures DefaultConfig(t) == if t.Unregistered? then NoFields else Defaults(t)
  {
    RegisteredKinds(t);
  }

  /** `createDefaultQuestion(t)`, with the fresh UUID passed in as `id`:
      the base fields with the type's defaults spread on top. No default
      touches the base fields, so they survive the spread. */
  function CreateDefaultQuestion(t: QuestionType, id: string): (q: QuestionConfig)
    ensures q.id == id && q.qtype == t
    ensures q.title == "" && q.description == Some("") && !q.required
  {
    DefaultsLeaveBaseFields(t);
    var base := QuestionConfig(id, t, "", Some(""), false, None, None, None, None, None, None);
    Merge(base, DefaultConfig(t))
  }

  /** The type-specific attributes of a new question are exactly the
      spread defaults: the base question sets none of them. */
  lemma CreatedAttributes(t: QuestionType, id: string)
    ensures var q := CreateDefaultQuestion(t, id); var p := DefaultConfig(t);
      && q.options == p.options && q.minValue == p.minValue && q.maxValue == p.maxValue
      && q.placeholder == p.placeholder && q.allowedFileTypes == p.allowedFileTypes
      && q.maxFileSize == p.maxFileSize
  {
  }

  /** The registry's defaults for the kinds that have type-specific
      attributes. */
  lemma KindDefaults(t: QuestionType)
    requires !t.Unregistered?
    ensures var p := Defaults(t);
      && (t == Dropdown || t == Checkboxes ==> p.options == Some(DefaultOptions))
      && (t == Rating ==> p.minValue == Some(1) && p.maxValue == Some(5))
      && (t == OpinionScale ==> p.minValue == Some(1) && p.maxValue == Some(10))
      && (t == FileUpload ==> p.allowedFileTypes == Some(["image/*", "application/pdf"]) && p.maxFileSize == Some(10))
  {
  }

  /** The defaults each kind starts with. */
  lemma DefaultAttributes(t: QuestionType, id: string)
    ensures var q := CreateDefaultQuestion(t, id);
      && (t == Dropdown || t == Checkboxes ==> q.options == Some(DefaultOptions))
      && (t == Rating ==> q.minValue == Some(1) && q.maxValue == Some(5))
      && (t == OpinionScale ==> q.minValue == Some(1) && q.maxValue == Some(10))
      && (t == FileUpload ==> q.allowedFileTypes == Some(["image/*", "application/pdf"]) && q.maxFileSize == Some(10))
      && (t.Unregistered? ==> q.options.None? && q.minValue.None? && q.maxValue.None?
                              && q.placeholder.None? && q.allowedFileTypes.None? && q.maxFileSize.None?)
  {
    CreatedAttributes(t, id);
    DefaultConfigIs(t);
    if !t.Unregistered? {
      KindDefaults(t);
    }
  }

  /** Wherever the defaults set both bounds, the lower one is below the upper. */
  lemma DefaultBoundsOrdered(t: QuestionType, id: string)
    ensures var q := CreateDefaultQuestion(t, id);
      q.minValue.Some? && q.maxValue.Some? ==> q.minValue.value < q.maxValue.value
  {
    CreatedAttributes(t, id);
    DefaultConfigIs(t);
  }
}
