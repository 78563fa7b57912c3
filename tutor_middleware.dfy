/**
 * The middleware that decides which tutor a request is about before the
 * view runs: the one named by the URL's `url_path`, or the only tutor
 * there is.
 */
module TutorMiddleware {
  import opened Wrappers
  import opened Tutors

  /** The middleware raises when the URL names a path shared by several tutors. */
  datatype MiddlewareError = MultipleTutorsReturned

  /** The tutor attached to the request, from the URL's `url_path` (if any) and the tutor table. */
  function SelectTutor(urlPath: Option<string>, tutors: seq<Tutor>): (r: Result<Option<Tutor>, MiddlewareError>)
    // a URL naming a tutor gets the tutor with that path, or none at all when there is no such tutor
    ensures urlPath.Some? && urlPath.value != "" && r.Success? && r.value.Some? ==>
      && r.value.value.urlPath == urlPath.value
      && forall t :: t in tutors && t.urlPath == urlPath.value ==> t == r.value.value
    ensures urlPath.Some? && urlPath.value != "" && (exists t :: t in tutors && t.urlPath == urlPath.value) ==>
      r.Failure? || r.value.Some?
    ensures urlPath.Some? && urlPath.value != "" && (forall t :: t in tutors ==> t.urlPath != urlPath.value) ==>
      r == Success(None)
    ensures r.Failure? ==> urlPath.Some? && |Matching(tutors, urlPath.value)| >= 2
    ensures urlPath.Some? && urlPath.value != "" ==> (r.Failure? <==> |Matching(tutors, urlPath.value)| >= 2)
    // otherwise the only tutor, if there is exactly one
    ensures (urlPath.None? || urlPath.value == "") && |tutors| == 1 ==> r == Success(Some(tutors[0]))
    ensures (urlPath.None? || urlPath.value == "") && |tutors| != 1 ==> r == Success(None)
    ensures r.Success? && r.value.Some? ==> r.value.value in tutors
  {
    if urlPath.Some? && urlPath.value != "" then
      match LookupTutor(tutors, urlPath.value)
      case OneTutor(t) => Success(Some(t))
      case NoTutor => Success(None)
      case ManyTutors => Failure(MultipleTutorsReturned)
    else if |tutors| == 1 then Success(Some(tutors[0]))
    else Success(None)
  }

  /**
   * `TutorMiddleware.__call__`: attach the tutor to the request and hand it
   * on; the response is the downstream handler's, unchanged.
   */
  function Call<R>(urlPath: Option<string>, tutors: seq<Tutor>, getResponse: Option<Tutor> -> R)
    : (r: Result<(Option<Tutor>, R), MiddlewareError>)
    ensures r.Success? <==> SelectTutor(urlPath, tutors).Success?
    ensures r.Success? ==> r.value.0 == SelectTutor(urlPath, tutors).value
    ensures r.Success? ==> r.value.1 == getResponse(r.value.0)
  {
    match SelectTutor(urlPath, tutors)
    case Success(tutor) => Success((tutor, getResponse(tutor)))
    case Failure(e) => Failure(e)
  }
}
