/**
 * The analysis step of the two scanner pages (components/SafetyScanner.tsx and
 * components/VisualScanner.tsx): the photo is held as the data URL a
 * `FileReader` produced, `split(',')[1]` keeps the second comma-separated
 * piece, and that piece goes to the direct SDK client's image analysis; a
 * rejected call ends in an alert.
 */
module Scanner {
  import opened Optional
  import opened DataUri
  import opened DirectClient

  /** What `startAnalysis` leaves on the page. */
  datatype Outcome = NotStarted | Analysed(analysis: Option<string>) | Alerted(message: string)

  const SafetyAlert: string := "분석에 실패했습니다."
  const VehicleAlert: string := "이미지 분석 실패"

  /** SafetyScanner's `startAnalysis`; `image` is the page's `string | null` state. */
  function SafetyScan(image: Option<string>, sdk: Sdk): (r: Outcome)
    ensures r.NotStarted? <==> image.None? || image.value == ""
    ensures !r.NotStarted? ==> (r.Alerted? <==> sdk(SafetyImageRequest(PayloadAfterComma(image.value))).SdkThrew?)
    ensures r.Alerted? ==> r.message == SafetyAlert
    ensures r.Analysed? ==> r.analysis == sdk(SafetyImageRequest(PayloadAfterComma(image.value))).text
  {
    if image.None? || image.value == "" then NotStarted
    else
      match AnalyzeSafetyImage(PayloadAfterComma(image.value), sdk)
      case Threw => Alerted(SafetyAlert)
      case Returned(text) => Analysed(text)
  }

  /** VisualScanner's `startAnalysis`, the same step through `analyzeVehicleImage`. */
  function VisualScan(image: Option<string>, sdk: Sdk): (r: Outcome)
    ensures r.NotStarted? <==> image.None? || image.value == ""
    ensures r.Alerted? ==> r.message == VehicleAlert
  {
    if image.None? || image.value == "" then NotStarted
    else
      match AnalyzeVehicleImage(PayloadAfterComma(image.value), sdk)
      case Threw => Alerted(VehicleAlert)
      case Returned(text) => Analysed(text)
  }

  /** The two pages behave alike; only the alert text differs. */
  lemma VisualScanIsSafetyScan(image: Option<string>, sdk: Sdk)
    ensures VisualScan(image, sdk) ==
      (if SafetyScan(image, sdk).Alerted? then Alerted(VehicleAlert) else SafetyScan(image, sdk))
  {
    if image.Some? && image.value != "" {
      VehicleImageIsSafetyImage(PayloadAfterComma(image.value), sdk);
    }
  }

  /**
   * On a photo's data URL (a base64 payload has no comma) the page sends the
   * SDK exactly what the relay server's prefix strip would keep: the payload,
   * so the picture does reach the model.
   */
  lemma ScannerSendsStrippedPayload(subtype: string, payload: string)
    requires IsSubtype(subtype) && ',' !in payload
    ensures SafetyImageRequest(PayloadAfterComma(DataUrl(subtype, payload))).contents ==
      ImageAndText(Some(StripDataUriPrefix(DataUrl(subtype, payload))), Jpeg, SafetyImageText)
    ensures SafetyImageRequest(PayloadAfterComma(DataUrl(subtype, payload))).contents.imageData == Some(payload)
  {
    PayloadAfterCommaAgreesWithStrip(subtype, payload);
  }

  /** An image text without a comma sends undefined as the inline data. */
  lemma CommaFreeImageSendsUndefined(image: string)
    requires ',' !in image
    ensures SafetyImageRequest(PayloadAfterComma(image)).contents.imageData == None
  {
  }
}
