/** The pieces that safe-copy requests are parsed from: results, platform rules and bounded texts. */
module IntentValues {
  import opened Options
  import opened Json
  import opened RequestIdentity

  const MAX_IDENTIFIER_LENGTH: nat := 256
  const MAX_FOLDER_PATH_LENGTH: nat := 1024

  datatype Code =
    | InvalidBody | UnknownField | InvalidProfile | InvalidRequestId | InvalidSource | InvalidDestination
    | InvalidDeployment | UnsupportedOptions | DuplicateTarget | LimitExceeded

  datatype Result<+T> = Ok(value: T) | Err(code: Code) {
    predicate IsFailure() {
      Err?
    }
    function PropagateFailure<U>(): Result<U>
      requires IsFailure()
    {
      Err(code)
    }
    function Extract(): T
      requires !IsFailure()
    {
      value
    }
  }

  function Need(condition: bool, code: Code): Result<bool> {
    if condition then Ok(true) else Err(code)
  }

  /** What is taken as given: printing a value as text; the shapes of view paths, namespace names, authored file
      paths and hashes; and the spelling of a folder path under which folders count as the same. */
  datatype Rules = Rules(show: Json -> string, viewPath: string -> bool, namespaceName: string -> bool,
                         authoredPath: string -> bool, hash: string -> bool, folder: string -> string)

  predicate OnlyKeys(v: Json, allowed: set<string>) {
    v.Object? && v.fields.Keys <= allowed
  }

  // ---------- identifiers ----------

  predicate HasControl(s: string) {
    exists i :: 0 <= i < |s| && (s[i] as int < 32 || s[i] as int == 127)
  }

  function Bounded(v: Option<Json>, limit: nat, code: Code): Result<string> {
    if !(v.Some? && v.value.Text?) || Trim(v.value.text) == "" then Err(code)
    else
      var text := Trim(v.value.text);
      if HasControl(text) then Err(code) else if |text| > limit then Err(LimitExceeded) else Ok(text)
  }

  function Identifier(v: Option<Json>, code: Code): Result<string> {
    Bounded(v, MAX_IDENTIFIER_LENGTH, code)
  }

  function OptionalText(v: Option<Json>, limit: nat): Result<Option<string>> {
    if v.None? then Ok(None)
    else
      var text :- Bounded(v, limit, InvalidDestination);
      Ok(Some(text))
  }

  lemma BoundedAgain(v: Option<Json>, limit: nat, code: Code)
    requires Bounded(v, limit, code).Ok?
    ensures Bounded(Some(Text(Bounded(v, limit, code).value)), limit, code) == Bounded(v, limit, code)
    ensures Bounded(v, limit, code).value != ""
  {}
}
