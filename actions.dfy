/**
 * The two buttons: `resetPosition` requests `/<element id>` and ignores the
 * answer; `clearData` asks for confirmation, requests `/clear` and alerts
 * on the answer's status.
 */
module Actions {
  import opened Wrappers

  /** The path `resetPosition` requests for the clicked control. */
  function ResetPath(elementId: string): (r: string)
    ensures |r| == |elementId| + 1 && r[0] == '/' && r[1..] == elementId
  {
    "/" + elementId
  }

  const ClearPath: string := "/clear"

  datatype Alert = ClearSucceeded | ClearFailed

  /** The text of each alert; each text belongs to one alert only. */
  function AlertText(a: Alert): (r: string)
    ensures r == "Dados apagados com sucesso!" <==> a == ClearSucceeded
    ensures r == "Ocorreu um erro ao apagar os dados." <==> a == ClearFailed
  {
    match a
    case ClearSucceeded => "Dados apagados com sucesso!"
    case ClearFailed => "Ocorreu um erro ao apagar os dados."
  }

  /** What one click on the clear button leads to: the request sent, if any, and the alert shown, if any. */
  datatype ClearEffect = ClearEffect(request: Option<string>, alert: Option<Alert>)

  /**
   * `clearData`. `confirmed` is the user's answer to the confirmation
   * dialog; `status` is the status of the response when its load event
   * fires, and None when it never does (a network failure: no handler but
   * `onload` is attached, so nothing is shown).
   */
  function ClearData(confirmed: bool, status: Option<int>): (r: ClearEffect)
    ensures r.request.Some? <==> confirmed
    ensures r.request.Some? ==> r.request.value == ClearPath
    ensures r.alert == Some(ClearSucceeded) <==> confirmed && status == Some(200)
    ensures r.alert == Some(ClearFailed) <==> confirmed && status.Some? && status.value != 200
    ensures r.alert.None? <==> !confirmed || status.None?
  {
    if !confirmed then ClearEffect(None, None)
    else
      var alert :=
        match status
        case None => None
        case Some(code) => if code == 200 then Some(ClearSucceeded) else Some(ClearFailed);
      ClearEffect(Some(ClearPath), alert)
  }

  /** An alert is shown only after a request was sent. */
  lemma AlertOnlyAfterRequest(confirmed: bool, status: Option<int>)
    ensures ClearData(confirmed, status).alert.Some? ==> ClearData(confirmed, status).request.Some?
  {
  }
}
