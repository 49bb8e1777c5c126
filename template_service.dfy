/**
 * Template ids: an id is accepted only when it is a non-empty run of
 * `[A-Za-z0-9_-]`, so it can never name a path outside the template folder.
 */
module TemplateService {
  import opened Wrappers
  import opened Errors

  predicate IdChar(c: char) {
    ('a' <= c <= 'z') || ('A' <= c <= 'Z') || ('0' <= c <= '9') || c == '-' || c == '_'
  }

  /** `[A-Za-z0-9_-]*` matches `id[i..]` to its end. */
  predicate IdCharsFrom(id: string, i: nat)
    requires i <= |id|
    decreases |id| - i
  {
    i == |id| || (IdChar(id[i]) && IdCharsFrom(id, i + 1))
  }

  lemma {:induction false} IdCharsFromMeans(id: string, i: nat)
    requires i <= |id|
    ensures IdCharsFrom(id, i) <==> forall k :: i <= k < |id| ==> IdChar(id[k])
    decreases |id| - i
  {
    if i < |id| {
      IdCharsFromMeans(id, i + 1);
    }
  }

  /** `sanitizeId(id)`: the id itself when it is non-empty and matches
      `^[a-zA-Z0-9\-_]+$`, else null. */
  function SanitizeId(id: string): (r: Option<string>)
    ensures r.Some? <==> id != [] && forall k :: 0 <= k < |id| ==> IdChar(id[k])
    ensures r.Some? ==> r.value == id
  {
    IdCharsFromMeans(id, 0);
    if id == "" then None
    else if IdCharsFrom(id, 0) then Some(id)
    else None
  }

  /** An accepted id has no path separator, dot or backslash. */
  lemma SanitizedIsPathSafe(id: string)
    requires SanitizeId(id).Some?
    ensures '/' !in SanitizeId(id).value && '.' !in SanitizeId(id).value && '\\' !in SanitizeId(id).value
  {
    var s := SanitizeId(id).value;
    forall k | 0 <= k < |s| ensures s[k] != '/' && s[k] != '.' && s[k] != '\\' {
      assert IdChar(s[k]);
    }
  }

  /** `sanitizeId` applied to a previous result (null stays null). */
  function SanitizeAgain(o: Option<string>): Option<string> {
    match o
    case None => None
    case Some(id) => SanitizeId(id)
  }

  /** `sanitizeId(sanitizeId(x)) == sanitizeId(x)`. */
  lemma SanitizeIdempotent(id: string)
    ensures SanitizeAgain(SanitizeId(id)) == SanitizeId(id)
  {
  }

  /** `loadTemplate(id)`: a rejected id fails with "Invalid template id" before
      the file system is consulted; an accepted one is handed to `read`, which
      stands for joining the path and reading the file. */
  function LoadTemplate(id: string, read: string -> Result<string, Error>): (r: Result<string, Error>)
    ensures SanitizeId(id).None? ==> r == Failure(InvalidTemplateId)
    ensures SanitizeId(id).Some? ==> r == read(id)
  {
    match SanitizeId(id)
    case None => Failure(InvalidTemplateId)
    case Some(safe) => read(safe)
  }

  /** Whatever the file system would answer, a rejected id gets the same error. */
  lemma RejectedIdIgnoresFiles(id: string, read1: string -> Result<string, Error>, read2: string -> Result<string, Error>)
    requires exists k :: 0 <= k < |id| && !IdChar(id[k])
    ensures LoadTemplate(id, read1) == LoadTemplate(id, read2) == Failure(InvalidTemplateId)
  {
  }
}
