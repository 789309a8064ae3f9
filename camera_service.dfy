/** The query service: hands out the full camera list from whichever
    backing source is configured, and searches it by name. A backing
    source is given by the answer its `GetAllAsync` produces; the reads the
    service makes are returned alongside its answer. */
module CameraService {
  import opened Wrappers
  import opened Errors
  import opened Text
  import opened Models
  import opened Seqs

  /** A read of one of the two backing sources. */
  datatype Read = StoreRead | RepositoryRead

  /** The service's two optional dependencies (`null` is `None`), each given
      by the answer its `GetAllAsync` produces. */
  datatype Service = Service(
    store: Option<Result<seq<Camera>, Exception>>,
    repository: Option<Result<seq<Camera>, Exception>>)

  /** The exception raised when neither dependency is set. */
  const NotConfigured: Exception :=
    Exception(InvalidOperation, "Neither store nor repository is configured")

  /** `GetAllAsync`: the store's answer when a store is set, otherwise the
      repository's, otherwise `InvalidOperationException`; with the reads
      made. */
  function GetAll(svc: Service): (Result<seq<Camera>, Exception>, seq<Read>) {
    if svc.store.Some? then (svc.store.value, [StoreRead])
    else if svc.repository.Some? then (svc.repository.value, [RepositoryRead])
    else (Failure(NotConfigured), [])
  }

  /** The search test applied to each camera: its name contains `term`,
      ignoring case. */
  function NameContains(term: string): Camera -> bool {
    (c: Camera) => ContainsIgnoreCase(c.name, term)
  }

  /** `SearchAsync`: the full list, filtered by `NameContains(term)`; a
      failure of the full list is passed on. */
  function Search(svc: Service, term: string): (Result<seq<Camera>, Exception>, seq<Read>) {
    var (full, trace) := GetAll(svc);
    match full
    case Failure(e) => (Failure(e), trace)
    case Success(cameras) => (Success(Filter(NameContains(term), cameras)), trace)
  }

  // ------------------------------------------------------------ properties

  /** The dependency choice: the store wins whenever it is set, and its list
      is returned unchanged; the repository is read only without a store;
      with neither, the call fails without reading anything. Each call
      reads at most once. */
  lemma GetAllChoice(svc: Service)
    ensures svc.store.Some? ==> GetAll(svc) == (svc.store.value, [StoreRead])
    ensures svc.store.None? && svc.repository.Some? ==> GetAll(svc) == (svc.repository.value, [RepositoryRead])
    ensures svc.store.None? && svc.repository.None? ==> GetAll(svc) == (Failure(NotConfigured), [])
    ensures |GetAll(svc).1| <= 1
  {
  }

  /** A search reads the backing list exactly as often as `GetAll` does:
      once, when a source is set. */
  lemma SearchReadsOnce(svc: Service, term: string)
    ensures Search(svc, term).1 == GetAll(svc).1
    ensures svc.store.Some? || svc.repository.Some? ==> |Search(svc, term).1| == 1
  {
  }

  /** The search result is the ordered subsequence of the full list whose
      names contain the term: the `i`-th result is the camera at `idx[i]`,
      positions increase, and a camera is kept exactly when it matches. */
  lemma SearchIsSubsequence(svc: Service, term: string) returns (idx: seq<nat>)
    requires GetAll(svc).0.Success?
    ensures Search(svc, term).0.Success?
    ensures var all := GetAll(svc).0.value; var found := Search(svc, term).0.value;
      |idx| == |found| && IncreasingPositions(idx, |all|) &&
      (forall i :: 0 <= i < |idx| ==> found[i] == all[idx[i]]) &&
      (forall j :: 0 <= j < |all| ==> (ContainsIgnoreCase(all[j].name, term) <==> j in idx))
  {
    idx := FilterIndices(NameContains(term), GetAll(svc).0.value);
  }

  /** A failure of the full list is the search's failure. */
  lemma SearchPassesFailure(svc: Service, term: string)
    requires GetAll(svc).0.Failure?
    ensures Search(svc, term).0 == GetAll(svc).0
  {
  }

  /** Blank terms are not rejected: the empty term occurs in every name, so
      every camera is returned. */
  lemma EmptyTermReturnsAll(svc: Service)
    requires GetAll(svc).0.Success?
    ensures Search(svc, "").0 == GetAll(svc).0
  {
    var all := GetAll(svc).0.value;
    forall j | 0 <= j < |all| ensures NameContains("")(all[j]) {
      EmptyOccursEverywhere(all[j].name);
    }
    FilterKeepsAll(NameContains(""), all);
  }

  /** The empty text occurs at the start of every text. */
  lemma EmptyOccursEverywhere(s: string)
    ensures ContainsIgnoreCase(s, "")
  {
    assert MatchesAt(s, "", 0);
  }

  /** When no name contains the term, the result is empty. */
  lemma NoMatchIsEmpty(svc: Service, term: string)
    requires GetAll(svc).0.Success?
    requires forall j :: 0 <= j < |GetAll(svc).0.value| ==> !ContainsIgnoreCase(GetAll(svc).0.value[j].name, term)
    ensures Search(svc, term).0 == Success([])
  {
    FilterDropsAll(NameContains(term), GetAll(svc).0.value);
  }

  /** `neude` is found in `Neude rijbaan`, whatever the letter case. */
  lemma ExampleContains(name: string)
    requires name == "Neude rijbaan"
    ensures ContainsIgnoreCase(name, "neude")
  {
    assert name[0..5] == "Neude";
    assert MatchesAt(name, "neude", 0);
  }

  /** `neude` is not found in `Utrecht Central`: no five letters of it spell
      the word. */
  lemma ExampleNotContains(name: string)
    requires name == "Utrecht Central"
    ensures !ContainsIgnoreCase(name, "neude")
  {
    ContainsIgnoreCaseIff(name, "neude");
    forall i | 0 <= i <= |name| ensures !MatchesAt(name, "neude", i) {
      if i + 5 <= |name| {
        assert ToUpper(name[i]) != 'N' || ToUpper(name[i + 1]) != 'E';
        assert name[i..i + 5][0] == name[i] && name[i..i + 5][1] == name[i + 1];
      }
    }
  }
}
