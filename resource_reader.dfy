/** The embedded-resource reader: finds a manifest resource by the end of
    its name and opens it. The assembly is given as data: its manifest
    names in enumeration order, and the content of each stream that opens.
    Since the CSV tokenising is not modelled, a stream's content is the
    sequence of rows it holds. */
module ResourceReader {
  import opened Wrappers
  import opened Text
  import opened Errors
  import opened Models
  import opened Seqs

  /** An assembly's embedded resources. A name in `names` that is not a key
      of `streams` is one whose stream comes back `null`. */
  datatype Assembly = Assembly(names: seq<string>, streams: map<string, seq<CsvRow>>)

  /** `FindResourceName`: the first manifest name, in enumeration order,
      that ends with `suffix`, ignoring case; `None` stands for `null`. */
  function FindResourceName(asm: Assembly, suffix: string): (r: Option<string>)
    ensures r.None? <==> forall i :: 0 <= i < |asm.names| ==> !EndsWithIgnoreCase(asm.names[i], suffix)
    ensures r.Some? ==>
      exists i :: 0 <= i < |asm.names| && asm.names[i] == r.value &&
        EndsWithIgnoreCase(asm.names[i], suffix) &&
        (forall j :: 0 <= j < i ==> !EndsWithIgnoreCase(asm.names[j], suffix))
  {
    match IndexOfFirst(n => EndsWithIgnoreCase(n, suffix), asm.names)
    case None => None
    case Some(i) => Some(asm.names[i])
  }

  /** `ReadResourceAsync`: the stream of the resource found for
      `resourceName`; `FileNotFoundException` when no name matches or the
      matched resource has no stream. */
  function ReadResource(asm: Assembly, resourceName: string): Result<seq<CsvRow>, Exception> {
    match FindResourceName(asm, resourceName)
    case None => Failure(Exception(FileNotFound, "Embedded resource '" + resourceName + "' not found."))
    case Some(resName) =>
      if resName !in asm.streams then
        Failure(Exception(FileNotFound, "Resource stream '" + resName + "' not found."))
      else
        Success(asm.streams[resName])
  }

  /** `ResourceExistsAsync`: some manifest name ends with `resourceName`,
      ignoring case. */
  predicate ResourceExists(asm: Assembly, resourceName: string) {
    FindResourceName(asm, resourceName).Some?
  }

  /** A resource exists exactly when some manifest name ends with the
      given text. */
  lemma ResourceExistsIff(asm: Assembly, resourceName: string)
    ensures ResourceExists(asm, resourceName) <==>
      exists i :: 0 <= i < |asm.names| && EndsWithIgnoreCase(asm.names[i], resourceName)
  {
  }

  /** Every failure of `ReadResource` is a `FileNotFoundException`; a read
      succeeds only for a resource that exists, and a missing resource is
      reported under the name that was asked for. */
  lemma ReadResourceOutcome(asm: Assembly, resourceName: string)
    ensures ReadResource(asm, resourceName).Failure? ==> ReadResource(asm, resourceName).error.kind == FileNotFound
    ensures ReadResource(asm, resourceName).Success? ==> ResourceExists(asm, resourceName)
    ensures !ResourceExists(asm, resourceName) ==>
      ReadResource(asm, resourceName) == Failure(Exception(FileNotFound, "Embedded resource '" + resourceName + "' not found."))
  {
  }

  /** When the first name ending with `resourceName` is at `i` and its
      stream opens, the read returns that stream's content. */
  lemma ReadResourceFound(asm: Assembly, resourceName: string, i: nat)
    requires i < |asm.names| && EndsWithIgnoreCase(asm.names[i], resourceName)
    requires forall j :: 0 <= j < i ==> !EndsWithIgnoreCase(asm.names[j], resourceName)
    requires asm.names[i] in asm.streams
    ensures ReadResource(asm, resourceName) == Success(asm.streams[asm.names[i]])
  {
    var r := FindResourceName(asm, resourceName);
    var k :| 0 <= k < |asm.names| && asm.names[k] == r.value && EndsWithIgnoreCase(asm.names[k], resourceName) &&
      (forall j :: 0 <= j < k ==> !EndsWithIgnoreCase(asm.names[j], resourceName));
    assert !(k < i) && !(i < k);
  }

  /** Matching is by suffix: a fully qualified name ending in the
      configured path is selected by that path. */
  lemma {:induction false} SuffixMatches(prefix: string, suffix: string)
    ensures EndsWithIgnoreCase(prefix + suffix, suffix)
  {
    var s := prefix + suffix;
    assert s[|s| - |suffix|..] == suffix;
  }

  /** The first matching name wins: when the first name matches, it is the
      one found, whatever the later names are. */
  lemma FirstMatchWins(asm: Assembly, suffix: string)
    requires |asm.names| > 0 && EndsWithIgnoreCase(asm.names[0], suffix)
    ensures FindResourceName(asm, suffix) == Some(asm.names[0])
  {
  }
}
