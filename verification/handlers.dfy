/**
 * The backend's `handlers` package: the success envelopes, and the region
 * and sport handlers' choice of service call and mapping of its result to
 * a reply or an HTTP error. A service call is abstracted as its result,
 * `Success` with the rows or `Failure` with any error; the row types are
 * type parameters, since the generated query layer is not part of this model.
 */
module Handlers {
  import opened Wrappers
  import opened ErrorMiddleware

  // Success envelopes (response.go)

  function NewSuccessResponse<D>(data: D): (r: APIResponse<D>)
    ensures r.data == Some(data)
    ensures r.error.None? && r.meta.None?
  {
    APIResponse(Some(data), None, None)
  }

  /** `meta` is a pointer in the source, hence optional. */
  function NewSuccessResponseWithMeta<D>(data: D, meta: Option<Meta>): (r: APIResponse<D>)
    ensures r.data == Some(data) && r.meta == meta
    ensures r.error.None?
  {
    APIResponse(Some(data), None, meta)
  }

  /** No envelope is both a success and an error: the two constructors are told apart by `error`. */
  lemma SuccessAndErrorDisjoint<D>(data: D, meta: Option<Meta>, code: ErrorCode, message: string, details: seq<string>)
    ensures NewSuccessResponse(data) != NewErrorResponse<D>(code, message, details)
    ensures NewSuccessResponseWithMeta(data, meta) != NewErrorResponse<D>(code, message, details)
    ensures NewSuccessResponseWithMeta(data, None) == NewSuccessResponse(data)
  {
  }

  /** What a handler returns: a JSON reply it writes itself, or an error for the error handler. */
  datatype Outcome<P> = Respond(status: int, body: APIResponse<P>) | Raise(err: Error)

  const StatusOK := 200

  /** The query parameter value that switches a flag on. */
  const TrueText := "true"

  // Regions (regions.go)

  /** The query parameters; an absent parameter reads as "". */
  datatype RegionQuery = RegionQuery(regionType: string, prefecture: string, hierarchy: string)

  datatype RegionCall = HierarchyCall | PrefecturesCall | MunicipalitiesCall(prefectureCode: string) | AllRegionsCall

  /** The `GetRegions` switch: the first case that holds decides the one service call made. */
  function SelectRegionCall(q: RegionQuery): (call: RegionCall) {
    if q.hierarchy == TrueText then HierarchyCall
    else if q.regionType == "prefecture" then PrefecturesCall
    else if q.prefecture != "" then MunicipalitiesCall(q.prefecture)
    else AllRegionsCall
  }

  /** The precedence, each case stated as a condition on the query in both directions. */
  lemma RegionCallPrecedence(q: RegionQuery)
    ensures SelectRegionCall(q) == HierarchyCall <==> q.hierarchy == "true"
    ensures SelectRegionCall(q) == PrefecturesCall <==> q.hierarchy != "true" && q.regionType == "prefecture"
    ensures SelectRegionCall(q).MunicipalitiesCall? <==>
      q.hierarchy != "true" && q.regionType != "prefecture" && q.prefecture != ""
    ensures SelectRegionCall(q).MunicipalitiesCall? ==> SelectRegionCall(q).prefectureCode == q.prefecture
    ensures SelectRegionCall(q) == AllRegionsCall <==>
      q.hierarchy != "true" && q.regionType != "prefecture" && q.prefecture == ""
  {
  }

  /**
   * The regions service as seen by the handlers: the result of each query,
   * the per-prefecture and per-code queries as functions of their argument.
   */
  datatype RegionsService<R, H, E> = RegionsService(
    allRegions: Result<seq<R>, E>,
    prefectures: Result<seq<R>, E>,
    municipalities: string -> Result<seq<R>, E>,
    hierarchy: Result<seq<H>, E>,
    regionByCode: string -> Result<R, E>)

  /** What the list endpoint puts in `Data`: a region list or the hierarchy rows. */
  datatype RegionList<R, H> = Regions(regions: seq<R>) | HierarchyRows(rows: seq<H>)

  /** The result of the one service call a choice makes. */
  function CallRegions<R, H, E>(svc: RegionsService<R, H, E>, call: RegionCall): Result<RegionList<R, H>, E> {
    match call
    case HierarchyCall =>
      (match svc.hierarchy case Success(rows) => Success(HierarchyRows(rows)) case Failure(e) => Failure(e))
    case PrefecturesCall =>
      (match svc.prefectures case Success(rs) => Success(Regions(rs)) case Failure(e) => Failure(e))
    case MunicipalitiesCall(code) =>
      (match svc.municipalities(code) case Success(rs) => Success(Regions(rs)) case Failure(e) => Failure(e))
    case AllRegionsCall =>
      (match svc.allRegions case Success(rs) => Success(Regions(rs)) case Failure(e) => Failure(e))
  }

  const FetchRegionsFailed := "Failed to fetch regions"
  const RegionNotFound := "Region not found"

  /** `GET /api/v1/regions`. */
  function GetRegions<R, H, E>(svc: RegionsService<R, H, E>, q: RegionQuery): (o: Outcome<RegionList<R, H>>)
    ensures o.Respond? <==> CallRegions(svc, SelectRegionCall(q)).Success?
    ensures o.Respond? ==> o.status == 200 && o.body == NewSuccessResponse(CallRegions(svc, SelectRegionCall(q)).value)
    ensures o.Raise? ==> o.err == HTTPError(500, Text(FetchRegionsFailed))
  {
    match CallRegions(svc, SelectRegionCall(q))
    case Success(list) => Respond(StatusOK, NewSuccessResponse(list))
    case Failure(_) => Raise(HTTPError(StatusInternalServerError, Text(FetchRegionsFailed)))
  }

  /** `GET /api/v1/regions/:code`: any failure of the lookup is a 404. */
  function GetRegionByCode<R, H, E>(svc: RegionsService<R, H, E>, code: string): (o: Outcome<R>)
    ensures o.Respond? <==> svc.regionByCode(code).Success?
    ensures o.Respond? ==> o.status == 200 && o.body == NewSuccessResponse(svc.regionByCode(code).value)
    ensures o.Raise? ==> o.err == HTTPError(404, Text(RegionNotFound))
  {
    match svc.regionByCode(code)
    case Success(region) => Respond(StatusOK, NewSuccessResponse(region))
    case Failure(_) => Raise(HTTPError(StatusNotFound, Text(RegionNotFound)))
  }

  // Sports (sports.go)

  datatype SportsQuery = SportsQuery(active: string)

  datatype SportsCall = ActiveSportsCall | AllSportsCall

  function SelectSportsCall(q: SportsQuery): (call: SportsCall) {
    if q.active == TrueText then ActiveSportsCall else AllSportsCall
  }

  lemma SportsCallChoice(q: SportsQuery)
    ensures SelectSportsCall(q) == ActiveSportsCall <==> q.active == "true"
    ensures SelectSportsCall(q) == AllSportsCall <==> q.active != "true"
  {
  }

  /** The sports service; `sportByID` fails for a malformed id as for a missing one. */
  datatype SportsService<S, E> = SportsService(
    allSports: Result<seq<S>, E>,
    activeSports: Result<seq<S>, E>,
    sportByID: string -> Result<S, E>)

  function CallSports<S, E>(svc: SportsService<S, E>, call: SportsCall): Result<seq<S>, E> {
    match call
    case ActiveSportsCall => svc.activeSports
    case AllSportsCall => svc.allSports
  }

  const FetchSportsFailed := "Failed to fetch sports"
  const SportNotFound := "Sport not found"

  /** `GET /api/v1/sports`. */
  function GetSports<S, E>(svc: SportsService<S, E>, q: SportsQuery): (o: Outcome<seq<S>>)
    ensures o.Respond? <==> CallSports(svc, SelectSportsCall(q)).Success?
    ensures o.Respond? ==> o.status == 200 && o.body == NewSuccessResponse(CallSports(svc, SelectSportsCall(q)).value)
    ensures o.Raise? ==> o.err == HTTPError(500, Text(FetchSportsFailed))
  {
    match CallSports(svc, SelectSportsCall(q))
    case Success(sports) => Respond(StatusOK, NewSuccessResponse(sports))
    case Failure(_) => Raise(HTTPError(StatusInternalServerError, Text(FetchSportsFailed)))
  }

  /** `GET /api/v1/sports/:id`: any failure of the lookup is a 404. */
  function GetSportByID<S, E>(svc: SportsService<S, E>, id: string): (o: Outcome<S>)
    ensures o.Respond? <==> svc.sportByID(id).Success?
    ensures o.Respond? ==> o.status == 200 && o.body == NewSuccessResponse(svc.sportByID(id).value)
    ensures o.Raise? ==> o.err == HTTPError(404, Text(SportNotFound))
  {
    match svc.sportByID(id)
    case Success(sport) => Respond(StatusOK, NewSuccessResponse(sport))
    case Failure(_) => Raise(HTTPError(StatusNotFound, Text(SportNotFound)))
  }

  // From handler to wire

  /** What reaches the client: the handler's own reply, or what the error handler writes. */
  function Serve<P>(o: Outcome<P>, committed: bool): (written: Option<(int, APIResponse<P>)>)
    ensures o.Respond? ==> written == Some((o.status, o.body))
    ensures o.Raise? ==> (written.None? <==> committed)
    ensures o.Raise? && !committed ==>
      written == Some((MapError(o.err).status, ErrorOnly(MapError(o.err).error)))
  {
    match o
    case Respond(status, body) => Some((status, body))
    case Raise(err) =>
      match HandleError(err, committed)
      case None => None
      case Some(reply) => Some((reply.status, ErrorOnly(reply.error)))
  }

  /** Every reply that reaches the client carries exactly one of `Data` and `Error`. */
  lemma RegionsReplyIsOneOf<R, H, E>(svc: RegionsService<R, H, E>, q: RegionQuery, committed: bool)
    ensures var w := Serve(GetRegions(svc, q), committed);
      w.Some? ==> (w.value.1.data.Some? <==> w.value.1.error.None?)
  {
  }

  /** The same for the other three endpoints. */
  lemma RegionByCodeReplyIsOneOf<R, H, E>(svc: RegionsService<R, H, E>, code: string, committed: bool)
    ensures var w := Serve(GetRegionByCode(svc, code), committed);
      w.Some? ==> (w.value.1.data.Some? <==> w.value.1.error.None?)
  {
  }

  lemma SportsReplyIsOneOf<S, E>(svc: SportsService<S, E>, q: SportsQuery, committed: bool)
    ensures var w := Serve(GetSports(svc, q), committed);
      w.Some? ==> (w.value.1.data.Some? <==> w.value.1.error.None?)
  {
  }

  lemma SportByIDReplyIsOneOf<S, E>(svc: SportsService<S, E>, id: string, committed: bool)
    ensures var w := Serve(GetSportByID(svc, id), committed);
      w.Some? ==> (w.value.1.data.Some? <==> w.value.1.error.None?)
  {
  }

  /**
   * A failed list query reaches the client as a 500 internal error; the
   * handler's own message is not shown, only the fixed one.
   */
  lemma RegionsFailureOnWire<R, H, E>(svc: RegionsService<R, H, E>, q: RegionQuery)
    requires CallRegions(svc, SelectRegionCall(q)).Failure?
    ensures var w := Serve(GetRegions(svc, q), false);
      && w.Some? && w.value.0 == 500
      && ParseCode(w.value.1.error.value.code) == Some(Internal)
      && w.value.1.error.value.message == "内部エラーが発生しました"
      && w.value.1.error.value.details == ""
  {
  }

  /** A failed lookup by code reaches the client as a 404 with the not-found code and message. */
  lemma RegionByCodeFailureOnWire<R, H, E>(svc: RegionsService<R, H, E>, code: string)
    requires svc.regionByCode(code).Failure?
    ensures var w := Serve(GetRegionByCode(svc, code), false);
      && w.Some? && w.value.0 == 404
      && ParseCode(w.value.1.error.value.code) == Some(NotFound)
      && w.value.1.error.value.message == "リソースが見つかりません"
      && w.value.1.data.None?
  {
  }

  /** The same for sports: a list failure is a 500, a lookup failure a 404. */
  lemma SportsFailuresOnWire<S, E>(svc: SportsService<S, E>, q: SportsQuery, id: string)
    ensures CallSports(svc, SelectSportsCall(q)).Failure? ==>
      var w := Serve(GetSports(svc, q), false);
      w.Some? && w.value.0 == 500 && ParseCode(w.value.1.error.value.code) == Some(Internal)
    ensures svc.sportByID(id).Failure? ==>
      var w := Serve(GetSportByID(svc, id), false);
      w.Some? && w.value.0 == 404 && ParseCode(w.value.1.error.value.code) == Some(NotFound)
  {
  }
}
