/** The web API's cameras controller: each action maps the query and the
    service's outcome to an HTTP result. The service is given as what its
    calls produce, and each action also returns the calls it made. */
module CamerasController {
  import opened Wrappers
  import opened Errors
  import opened Text
  import opened Models
  import opened Seqs
  import CameraService

  /** The results the actions produce: `Ok` with the cameras as body,
      `BadRequest` with a message, or `Problem` with its status code and
      detail. */
  datatype ActionResult =
    | Ok(cameras: seq<Camera>)
    | BadRequest(message: string)
    | Problem(status: int, detail: string)

  /** A call the controller makes on the camera service. */
  datatype ServiceCall = GetAllCall | SearchCall(term: string)

  const NameRequiredMessage: string := "Query parameter 'name' is required."
  const FetchFailedDetail: string := "Unexpected error while fetching cameras."
  const SearchFailedDetail: string := "Unexpected error while searching cameras."

  /** `GetAllCameras`: one `GetAllAsync` call; its list as `Ok`, or a 500
      problem when it throws. */
  function GetAllCameras(answer: Result<seq<Camera>, Exception>): (ActionResult, seq<ServiceCall>) {
    match answer
    case Success(cameras) => (Ok(cameras), [GetAllCall])
    case Failure(_) => (Problem(500, FetchFailedDetail), [GetAllCall])
  }

  /** `SearchCameras`: a missing or blank `name` is a bad request and the
      service is not called; otherwise one `SearchAsync` call with the name
      as given, its list as `Ok`, or a 500 problem when it throws. */
  function SearchCameras(name: Option<string>, search: string -> Result<seq<Camera>, Exception>)
    : (ActionResult, seq<ServiceCall>)
  {
    if name.None? || IsBlank(name.value) then (BadRequest(NameRequiredMessage), [])
    else match search(name.value)
      case Success(cameras) => (Ok(cameras), [SearchCall(name.value)])
      case Failure(_) => (Problem(500, SearchFailedDetail), [SearchCall(name.value)])
  }

  // ------------------------------------------------------------ properties

  /** Fetching all cameras calls the service once; the result is `Ok` with
      exactly the service's list, the empty list included, when the call
      succeeds, and a 500 problem when it fails. */
  lemma GetAllCamerasSpec(answer: Result<seq<Camera>, Exception>)
    ensures GetAllCameras(answer).1 == [GetAllCall]
    ensures forall cameras :: GetAllCameras(answer).0 == Ok(cameras) <==> answer == Success(cameras)
    ensures answer.Failure? <==> GetAllCameras(answer).0 == Problem(500, FetchFailedDetail)
  {
  }

  /** A missing or blank name is rejected with 400 before the service is
      called. */
  lemma SearchBlankRejected(name: Option<string>, search: string -> Result<seq<Camera>, Exception>)
    ensures SearchCameras(name, search).0.BadRequest? <==> name.None? || IsBlank(name.value)
    ensures SearchCameras(name, search).0.BadRequest? ==>
      SearchCameras(name, search) == (BadRequest(NameRequiredMessage), [])
  {
  }

  /** Any other name reaches the service once, unchanged and untrimmed; the
      result is `Ok` with exactly the service's list when the call succeeds,
      and a 500 problem when it fails. */
  lemma SearchPassesName(name: string, search: string -> Result<seq<Camera>, Exception>)
    requires !IsBlank(name)
    ensures SearchCameras(Some(name), search).1 == [SearchCall(name)]
    ensures forall cameras :: SearchCameras(Some(name), search).0 == Ok(cameras) <==> search(name) == Success(cameras)
    ensures search(name).Failure? <==> SearchCameras(Some(name), search).0 == Problem(500, SearchFailedDetail)
  {
  }

  /** Over the query service, a search for a non-blank name answers `Ok`
      with the full list's cameras whose names contain the name, in their
      order, when the full list can be read. */
  lemma SearchOverService(svc: CameraService.Service, name: string)
    requires !IsBlank(name)
    requires CameraService.GetAll(svc).0.Success?
    ensures SearchCameras(Some(name), (t: string) => CameraService.Search(svc, t).0).0 ==
      Ok(Filter(CameraService.NameContains(name), CameraService.GetAll(svc).0.value))
  {
  }

  /** `"   "` is blank, so it is rejected like a missing name. */
  lemma ExampleWhiteSpaceName(name: string, search: string -> Result<seq<Camera>, Exception>)
    requires name == "   "
    ensures SearchCameras(Some(name), search) == (BadRequest(NameRequiredMessage), [])
  {
  }
}
