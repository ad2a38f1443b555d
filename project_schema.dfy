/** The project creation schema (src/schemas/project.ts). */
module ProjectSchema {
  import opened Wrappers

  const NAME_MIN := 3
  const KEY_MIN := 2
  const KEY_MAX := 8

  /** A character of the class [A-Z0-9]. */
  predicate IsKeyChar(c: char) {
    'A' <= c <= 'Z' || '0' <= c <= '9'
  }

  /** `/^[A-Z0-9]+$/`: one or more characters, each in [A-Z0-9]. */
  predicate MatchesKeyPattern(key: string) {
    |key| >= 1 && forall i :: 0 <= i < |key| ==> IsKeyChar(key[i])
  }

  predicate ValidProjectName(name: string) {
    |name| >= NAME_MIN
  }

  predicate ValidProjectKey(key: string) {
    KEY_MIN <= |key| <= KEY_MAX && MatchesKeyPattern(key)
  }

  /** The issues the schema reports; zod runs every check of a field. */
  datatype ProjectIssue = NameTooShort | KeyTooShort | KeyTooLong | KeyNotUppercaseAlphanumeric

  datatype CreateProjectRequest = CreateProjectRequest(name: string, key: string, description: Option<string>)

  function CreateProjectErrors(req: CreateProjectRequest): seq<ProjectIssue> {
    (if |req.name| < NAME_MIN then [NameTooShort] else []) +
    (if |req.key| < KEY_MIN then [KeyTooShort] else []) +
    (if |req.key| > KEY_MAX then [KeyTooLong] else []) +
    (if MatchesKeyPattern(req.key) then [] else [KeyNotUppercaseAlphanumeric])
  }

  /** `createProjectSchema.safeParse`. A valid request comes back unchanged;
      description may be absent. */
  function ParseCreateProject(req: CreateProjectRequest): (r: Result<CreateProjectRequest, seq<ProjectIssue>>)
    ensures r.Success? <==>
      |req.name| >= 3 && 2 <= |req.key| <= 8 &&
      forall i :: 0 <= i < |req.key| ==> 'A' <= req.key[i] <= 'Z' || '0' <= req.key[i] <= '9'
    ensures r.Success? ==> r.value == req
    ensures r.Failure? ==>
      && r.error != []
      && (NameTooShort in r.error <==> |req.name| < 3)
      && (KeyTooShort in r.error <==> |req.key| < 2)
      && (KeyTooLong in r.error <==> |req.key| > 8)
      && (KeyNotUppercaseAlphanumeric in r.error <==>
            (req.key == [] || exists i :: 0 <= i < |req.key| && !IsKeyChar(req.key[i])))
  {
    if ValidProjectName(req.name) && ValidProjectKey(req.key) then Success(req)
    else Failure(CreateProjectErrors(req))
  }

  /** An accepted key never contains the dash that separates it from the
      number in an issue key. */
  lemma ValidKeyHasNoDash(key: string)
    requires ValidProjectKey(key)
    ensures '-' !in key
  {
  }
}
