/** The studio's service catalog (`SERVICE_MAP`): seven service codes, each
    taking one or two whole hours. */
module Services {
  import opened Common

  datatype ServiceInfo = ServiceInfo(name: string, duration: nat)

  /** The catalog entry of a service code, if the code is one of the seven. */
  function Lookup(code: string): (r: Option<ServiceInfo>)
    ensures r.Some? <==> code in Codes
    ensures r.Some? ==> r.value.duration == 1 || r.value.duration == 2
  {
    match code
    case "natural" => Some(ServiceInfo("자연눈썹", 2))
    case "combo" => Some(ServiceInfo("콤보눈썹", 2))
    case "shadow" => Some(ServiceInfo("섀도우눈썹", 2))
    case "retouch" => Some(ServiceInfo("리터치", 1))
    case "brownline" => Some(ServiceInfo("브라운아이라인", 1))
    case "removal" => Some(ServiceInfo("잔흔제거", 1))
    case "recommend" => Some(ServiceInfo("키뮤원장 추천시술", 2))
    case _ => None
  }

  const Codes: set<string> := {"natural", "combo", "shadow", "retouch", "brownline", "removal", "recommend"}

  /** Hours a service occupies; a code missing from the catalog (including the
      empty code) counts as one hour. */
  function Duration(code: string): (d: nat)
    ensures d == 1 || d == 2
    ensures code !in Codes ==> d == 1
    ensures d == 2 <==> code in {"natural", "combo", "shadow", "recommend"}
  {
    match Lookup(code)
    case Some(info) => info.duration
    case None => 1
  }
}
