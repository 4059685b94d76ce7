/** The spreadsheet back end as the dashboard sees it: the flat row a record is
    written as, and the decoding of an answer of the web application into data
    or an error message. */
module SheetService {
  import opened Domain
  import opened Strings

  // ---------------------------------------------------------------- the sheet row

  /** The creation-date column: the record's date, or the empty cell. */
  datatype DateCell = Blank | Date(millis: int)

  /** The object `serviceToSheetData` builds, one field per column. */
  datatype SheetRow = SheetRow(
    id: int,
    service: string,
    need: string,
    cluster: string,
    businessModel: string,
    targetAudience: string,
    status: string,
    creatorName: string,
    creationDate: DateCell,
    scoreAlinhamento: int,
    scoreValorCliente: int,
    scoreImpactoFin: int,
    scoreViabilidade: int,
    scoreVantagemComp: int,
    revenueEstimate: int)

  /** `serviceToSheetData`. */
  function ServiceToSheetData(s: Service): SheetRow
  {
    SheetRow(
      s.id, s.service, s.need, s.cluster, s.businessModel,
      s.targetAudience.GetOr(""),
      StatusName(s.status.GetOr(Avaliacao)),
      s.creatorName.GetOr(""),
      if s.creationDate.Some? then Date(s.creationDate.value) else Blank,
      ScoreAt(s.scores, 0), ScoreAt(s.scores, 1), ScoreAt(s.scores, 2), ScoreAt(s.scores, 3), ScoreAt(s.scores, 4),
      s.revenueEstimate.GetOr(0))
  }

  /** Identity and text fields are copied; a missing audience, author or date
      becomes the empty cell and a missing status is written as under evaluation. */
  lemma ServiceToSheetDataFields(s: Service)
    ensures var row := ServiceToSheetData(s);
      && row.id == s.id && row.service == s.service && row.need == s.need
      && row.cluster == s.cluster && row.businessModel == s.businessModel
      && (s.targetAudience.None? ==> row.targetAudience == "")
      && (s.targetAudience.Some? ==> row.targetAudience == s.targetAudience.value)
      && (s.creatorName.None? ==> row.creatorName == "")
      && (s.creatorName.Some? ==> row.creatorName == s.creatorName.value)
      && (row.creationDate.Blank? <==> s.creationDate.None?)
      && (s.status.None? ==> row.status == "avaliação")
      && (s.status.Some? ==> row.status == StatusName(s.status.value))
  {
  }

  /** The score columns hold criteria 0 to 4 in order, a missing one as 0, and
      add up to the record's total when it has at most five scores; the revenue
      column is the estimate, or 0 when there is none. */
  lemma ServiceToSheetDataNumbers(s: Service)
    ensures var row := ServiceToSheetData(s);
      && (forall i :: 0 <= i < 5 && i < |s.scores| && s.scores[i].Some? ==> ScoreColumn(row, i) == s.scores[i].value)
      && (forall i :: 0 <= i < 5 && (i >= |s.scores| || s.scores[i].None?) ==> ScoreColumn(row, i) == 0)
      && (|s.scores| <= CriteriaCount ==> SheetTotal(row) == Total(s.scores))
      && row.revenueEstimate == (if s.revenueEstimate.Some? then s.revenueEstimate.value else 0)
  {
    if |s.scores| <= CriteriaCount {
      TotalOfFive(s.scores);
    }
  }

  /** Column `score_*` number `i`, in the order of the five criteria. */
  function ScoreColumn(row: SheetRow, i: int): int
  {
    if i == 0 then row.scoreAlinhamento
    else if i == 1 then row.scoreValorCliente
    else if i == 2 then row.scoreImpactoFin
    else if i == 3 then row.scoreViabilidade
    else if i == 4 then row.scoreVantagemComp
    else 0
  }

  function SheetTotal(row: SheetRow): int
  {
    row.scoreAlinhamento + row.scoreValorCliente + row.scoreImpactoFin + row.scoreViabilidade + row.scoreVantagemComp
  }

  /** The status whose name is written in the column, if any. */
  function StatusFromName(name: string): (r: Option<Status>)
    ensures r.Some? ==> StatusName(r.value) == name
  {
    if name == StatusName(Avaliacao) then Some(Avaliacao)
    else if name == StatusName(Aprovada) then Some(Aprovada)
    else if name == StatusName(Cancelada) then Some(Cancelada)
    else if name == StatusName(Finalizada) then Some(Finalizada)
    else None
  }

  lemma StatusFromNameInverse(st: Status)
    ensures StatusFromName(StatusName(st)) == Some(st)
  {
  }

  /** Reading a row back as a record: every column becomes a present value. */
  function SheetRowToService(row: SheetRow): Service
  {
    Service(
      row.id, row.service, row.need, Some(row.targetAudience), row.cluster, row.businessModel,
      Some(StatusFromName(row.status).GetOr(Avaliacao)),
      Some(row.creatorName),
      if row.creationDate.Date? then Some(row.creationDate.millis) else None,
      [Some(row.scoreAlinhamento), Some(row.scoreValorCliente), Some(row.scoreImpactoFin),
       Some(row.scoreViabilidade), Some(row.scoreVantagemComp)],
      Some(row.revenueEstimate))
  }

  /** A record with every field present and exactly five scores. */
  predicate Complete(s: Service)
  {
    && s.targetAudience.Some? && s.status.Some? && s.creatorName.Some? && s.creationDate.Some?
    && s.revenueEstimate.Some?
    && |s.scores| == CriteriaCount && (forall i :: 0 <= i < |s.scores| ==> s.scores[i].Some?)
  }

  /** Writing a complete record to the sheet loses nothing: reading the row back gives the record. */
  lemma SheetRoundTrip(s: Service)
    requires Complete(s)
    ensures SheetRowToService(ServiceToSheetData(s)) == s
  {
    StatusFromNameInverse(s.status.value);
    var back := SheetRowToService(ServiceToSheetData(s));
    assert back.scores == s.scores by {
      assert forall i :: 0 <= i < CriteriaCount ==> back.scores[i] == s.scores[i];
    }
  }

  /** For any record with at most five scores, the row keeps what the
      dashboard reads: the status shown, the total, the revenue and the date. */
  lemma SheetKeepsIndicators(s: Service)
    requires |s.scores| <= CriteriaCount
    ensures var back := SheetRowToService(ServiceToSheetData(s));
      && EffectiveStatus(back.status) == EffectiveStatus(s.status)
      && Total(back.scores) == Total(s.scores)
      && back.revenueEstimate.GetOr(0) == s.revenueEstimate.GetOr(0)
      && back.creationDate == s.creationDate
  {
    var back := SheetRowToService(ServiceToSheetData(s));
    StatusFromNameInverse(s.status.GetOr(Avaliacao));
    TotalOfFive(s.scores);
    TotalOfFive(back.scores);
  }

  // ---------------------------------------------------------------- the request envelope

  /** The placeholder a fresh copy of the source carries instead of a URL. */
  const UrlPlaceholder := "YOUR_GOOGLE_APPS_SCRIPT_WEB_APP_URL_HERE"

  const ConfigMessage := "A URL do backend (Google Apps Script) não foi configurada. Verifique o arquivo services/googleSheetService.ts."
  const CommunicationPrefix := "Não foi possível se comunicar com o servidor. Verifique sua conexão. Detalhes: "
  const UnknownApiMessage := "Ocorreu um erro desconhecido na API."

  /** The web-application URL is usable: set, and not the placeholder. */
  predicate IsConfigured(url: string)
  {
    url != "" && !Contains(url, UrlPlaceholder)
  }

  /** The decoded JSON body: its `success`, `error` and `data` members, or a body that is not JSON. */
  datatype Body<T> = NotJson(parseError: string) | Envelope(success: Option<bool>, error: Option<string>, data: T)

  /** What `fetch` yields: a failure to reach the server, or an HTTP response
      with its `ok` flag, status line and the text or JSON of its body. */
  datatype Response<T> = NetworkFailure(message: string) | Http(ok: bool, status: nat, statusText: string, text: string, body: Body<T>)

  datatype Result<T> = Ok(data: T) | Err(message: string)

  /** The message of the error raised inside the request, before it is re-reported. */
  function InnerError<T>(response: Response<T>): Option<string>
  {
    match response
    case NetworkFailure(m) => Some(m)
    case Http(ok, status, statusText, text, body) =>
      if !ok then Some("Erro na API: " + NatToString(status) + " " + statusText + " - " + text)
      else match body
        case NotJson(m) => Some(m)
        case Envelope(success, error, data) =>
          if success == Some(false) then
            Some(if error.Some? && error.value != "" then error.value else UnknownApiMessage)
          else None
  }

  /** `apiRequest` once the request is made: `response` stands for the result of `fetch`. */
  function ApiRequest<T>(url: string, response: Response<T>): Result<T>
  {
    if !IsConfigured(url) then Err(ConfigMessage)
    else match InnerError(response)
      case Some(m) => Err(CommunicationPrefix + m)
      case None => Ok(response.body.data)
  }

  /** The request succeeds exactly when the URL is configured and an OK response
      carries a JSON envelope whose `success` is not `false`; it then returns the envelope's data. */
  lemma ApiRequestOk<T>(url: string, response: Response<T>)
    ensures ApiRequest(url, response).Ok? <==>
      IsConfigured(url) && response.Http? && response.ok && response.body.Envelope? && response.body.success != Some(false)
    ensures ApiRequest(url, response).Ok? ==> ApiRequest(url, response).data == response.body.data
  {
  }

  /** Without a usable URL the configuration error is reported as it is; every
      other failure is reported behind the communication prefix. */
  lemma ApiRequestErrors<T>(url: string, response: Response<T>)
    ensures !IsConfigured(url) ==> ApiRequest(url, response) == Err(ConfigMessage)
    ensures IsConfigured(url) && response.NetworkFailure? ==>
      ApiRequest(url, response) == Err(CommunicationPrefix + response.message)
    ensures IsConfigured(url) && response.Http? && !response.ok ==>
      ApiRequest(url, response) == Err(CommunicationPrefix + "Erro na API: " + NatToString(response.status) + " " + response.statusText + " - " + response.text)
    ensures IsConfigured(url) && response.Http? && response.ok && response.body.Envelope? && response.body.success == Some(false) ==>
      ApiRequest(url, response).Err? &&
      (response.body.error.Some? && response.body.error.value != "" ==>
        ApiRequest(url, response).message == CommunicationPrefix + response.body.error.value) &&
      (response.body.error.None? || response.body.error.value == "" ==>
        ApiRequest(url, response).message == CommunicationPrefix + UnknownApiMessage)
  {
  }

  /** A failure after the URL check always carries the communication prefix. */
  lemma ApiErrorPrefix<T>(url: string, response: Response<T>)
    requires IsConfigured(url) && ApiRequest(url, response).Err?
    ensures CommunicationPrefix <= ApiRequest(url, response).message
    ensures InnerError(response).Some?
  {
  }

  /** The placeholder URL is refused. */
  lemma PlaceholderRefused()
    ensures !IsConfigured(UrlPlaceholder)
  {
  }
}
