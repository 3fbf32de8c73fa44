/**
 * `importFile` (the accept/throw decision, given the already parsed file) and the
 * guards of the two "create collection" functions.
 */
module Import {
  import opened Common
  import opened Json
  import opened Validation

  datatype ImportKind = Tasks | Topics | Questions | Combo

  datatype ImportError =
    | NoFileProvided
    | InvalidFormat(artifact: string)   // "Invalid format for: " + artifact
    | InvalidDataFormat
    | TypeError                          // thrown by the runtime, not by the code

  /** The artifact name used in the error message of each single-list import. */
  function ArtifactName(kind: ImportKind): string {
    match kind
    case Tasks => "documents"
    case Topics => "topics"
    case Questions => "questions"
    case Combo => "data"
  }

  /** A string the comparison `s > 0` reads as a positive number: decimal digits, not all zero. */
  predicate PositiveNumeral(s: string) {
    |s| > 0 && (forall i :: 0 <= i < |s| ==> '0' <= s[i] <= '9') && exists i :: 0 <= i < |s| && s[i] != '0'
  }

  /** `data.length > 0`: arrays and strings have a length; an object only through a `length` key. */
  function LengthPositive(data: Json): (r: Result<bool, ImportError>)
    ensures r.Err? <==> data.JNull?
    ensures data.JArray? ==> r == Ok(|data.items| > 0)
  {
    match data
    case JNull => Err(TypeError)      // null.length
    case JArray(items) => Ok(|items| > 0)
    case JStr(s) => Ok(|s| > 0)
    case JObject(fields) =>
      if "length" !in fields then Ok(false)
      else Ok(match fields["length"]
              case JInt(n) => n > 0
              case JBool(b) => b
              case JStr(s) => PositiveNumeral(s)
              case _ => false)
    case _ => Ok(false)
  }

  function ListCheck(kind: ImportKind, data: Json): Verdict
    requires kind != Combo
  {
    match kind
    case Tasks => IsValidTasks(Some(data))
    case Topics => IsValidTopics(Some(data))
    case Questions => IsValidQuestions(Some(data))
  }

  /** The check each item of a single-list import must pass. */
  function ItemCheck(kind: ImportKind, e: Json): Verdict
    requires kind != Combo
  {
    match kind
    case Tasks => IsValidTask(e)
    case Topics => IsValidTopic(e)
    case Questions => IsValidQuestion(e)
  }

  function FromVerdict(v: Verdict, data: Json, err: ImportError): Result<Json, ImportError> {
    match v
    case Accept => Ok(data)
    case Reject => Err(err)
    case Throw => Err(TypeError)
  }

  /** `importFile(file, kind)`; `file` is the parsed content, None when no file was chosen. */
  function ImportFile(file: Option<Json>, kind: ImportKind): Result<Json, ImportError> {
    match file
    case None => Ok(JArray([]))
    case Some(data) =>
      if kind == Combo then FromVerdict(IsValidData(data), data, InvalidDataFormat)
      else
        match LengthPositive(data)
        case Err(e) => Err(e)
        case Ok(positive) =>
          if !positive then Err(NoFileProvided)
          else FromVerdict(ListCheck(kind, data), data, InvalidFormat(ArtifactName(kind)))
  }

  /** An accepted file is returned unchanged; no file at all yields an empty list. */
  lemma ImportReturnsData(file: Option<Json>, kind: ImportKind)
    requires ImportFile(file, kind).Ok?
    ensures ImportFile(file, kind).value == file.GetOr(JArray([]))
  {
  }

  /**
   * A single-list import succeeds exactly when the file is a non-empty array whose
   * items all pass the item check; an empty array reads as "No file provided".
   */
  lemma ImportListIff(data: Json, kind: ImportKind)
    requires kind != Combo
    ensures ImportFile(Some(data), kind).Ok? <==>
      data.JArray? && |data.items| > 0 &&
      forall i :: 0 <= i < |data.items| ==> ItemCheck(kind, data.items[i]) == Accept
    ensures data == JArray([]) ==> ImportFile(Some(data), kind) == Err(NoFileProvided)
  {
    match kind
    case Tasks => ValidListIff(Some(data), IsValidTask);
    case Topics => ValidListIff(Some(data), IsValidTopic);
    case Questions => ValidListIff(Some(data), IsValidQuestion);
  }

  /** A combined import succeeds exactly when tasks, topics and questions are all valid non-empty lists. */
  lemma ImportComboIff(data: Json)
    ensures ImportFile(Some(data), Combo).Ok? <==>
      !data.JNull? &&
      IsValidTasks(Prop(data, "tasks")) == Accept &&
      IsValidTopics(Prop(data, "topics")) == Accept &&
      IsValidQuestions(Prop(data, "questions")) == Accept
    ensures ImportFile(Some(data), Combo).Err? ==>
      ImportFile(Some(data), Combo).error in {InvalidDataFormat, TypeError}
  {
    ValidDataIff(data);
  }

  // ----- creating a collection -----

  datatype CreateError =
    | NoName             // "You have to define a collection name"
    | DuplicateName      // "A collection with this name already exists. ..."
    | ImportFailed(e: ImportError)

  /** The guards that run before any file is read. */
  function NameGuard(name: string, existing: seq<string>): (r: Option<CreateError>)
    ensures r.None? <==> name != "" && name !in existing
    ensures name == "" ==> r == Some(NoName)
  {
    if name == "" then Some(NoName)
    else if name in existing then Some(DuplicateName)
    else None
  }

  /** What `createCollectionFromMultiple` stores: the tasks file and each included file. */
  datatype Parts = Parts(tasks: Json, topics: Option<Json>, questions: Option<Json>)

  /**
   * The decision of `createCollectionFromMultiple`: the guards, then the tasks file,
   * then the topics file and the questions file when they are included. The first
   * error rejects the whole collection.
   */
  function CreateFromMultiple(name: string, existing: seq<string>,
                              tasksFile: Option<Json>, topicsFile: Option<Json>, questionsFile: Option<Json>,
                              topicsIncluded: bool, questionsIncluded: bool): (r: Result<Parts, CreateError>)
    ensures r.Ok? <==>
      NameGuard(name, existing).None? &&
      ImportFile(tasksFile, Tasks).Ok? &&
      (topicsIncluded ==> ImportFile(topicsFile, Topics).Ok?) &&
      (questionsIncluded ==> ImportFile(questionsFile, Questions).Ok?)
    ensures r.Ok? ==>
      r.value.tasks == tasksFile.GetOr(JArray([])) &&
      r.value.topics == (if topicsIncluded then Some(topicsFile.GetOr(JArray([]))) else None) &&
      r.value.questions == (if questionsIncluded then Some(questionsFile.GetOr(JArray([]))) else None)
    ensures NameGuard(name, existing).Some? ==> r == Err(NameGuard(name, existing).value)
  {
    match NameGuard(name, existing)
    case Some(e) => Err(e)
    case None =>
      match ImportFile(tasksFile, Tasks)
      case Err(e) => Err(ImportFailed(e))
      case Ok(tasks) =>
        var topics := if topicsIncluded then Some(ImportFile(topicsFile, Topics)) else None;
        var questions := if questionsIncluded then Some(ImportFile(questionsFile, Questions)) else None;
        if topics.Some? && topics.value.Err? then Err(ImportFailed(topics.value.error))
        else if questions.Some? && questions.value.Err? then Err(ImportFailed(questions.value.error))
        else Ok(Parts(tasks,
                      if topics.Some? then Some(topics.value.value) else None,
                      if questions.Some? then Some(questions.value.value) else None))
  }

  /** The decision of `createCollectionFromCombined`: the guards, then the combined file. */
  function CreateFromCombined(name: string, existing: seq<string>, file: Option<Json>): (r: Result<Json, CreateError>)
    ensures r.Ok? <==> NameGuard(name, existing).None? && ImportFile(file, Combo).Ok?
    ensures r.Ok? ==> r.value == file.GetOr(JArray([]))
  {
    match NameGuard(name, existing)
    case Some(e) => Err(e)
    case None =>
      match ImportFile(file, Combo)
      case Err(e) => Err(ImportFailed(e))
      case Ok(data) => Ok(data)
  }
}
