/** `SendToEventGrid`: route a processed plate to one of two Event Grid event
    types, depending on whether a plate was recognised, and forward it to the
    Event Grid client. The client is modelled by the log of events it was
    asked to send. */
module EventRouting {
  import opened Models

  /** The two event types: save the recognised plate's data, or queue the
      image for manual review. */
  datatype Route = SavePlateData | QueueForManualReview

  /** An event handed to the client: its type, subject and payload (the id
      and event time the client adds are not part of this model). */
  datatype OutboundEvent = OutboundEvent(eventType: Route, subject: string, data: LicensePlateData)

  /** The branch of `SendLicensePlateData` on `data.LicensePlateFound`. */
  function ChooseRoute(data: LicensePlateData): (route: Route)
    ensures route == SavePlateData <==> LicensePlateFound(data)
    ensures route == QueueForManualReview <==> !LicensePlateFound(data)
    ensures route == SavePlateData <==>
              data.licensePlateText.NonNull? &&
              exists i :: 0 <= i < |data.licensePlateText.value| &&
                          !IsWhiteSpace(data.licensePlateText.value[i])
  {
    if LicensePlateFound(data) then SavePlateData else QueueForManualReview
  }

  /** Null, empty and white-space-only texts go to manual review. */
  lemma NoTextGoesToManualReview(data: LicensePlateData)
    requires data.licensePlateText.Null? || AllWhiteSpace(data.licensePlateText.value)
    ensures ChooseRoute(data) == QueueForManualReview
  {
  }

  /** A plate read as "XJ-4021" is routed to saving; an empty read goes to
      manual review. */
  lemma RoutingExamples(fileName: string, when: DateTime)
    ensures ChooseRoute(LicensePlateData(fileName, NonNull("XJ-4021"), when)) == SavePlateData
    ensures ChooseRoute(LicensePlateData(fileName, NonNull(""), when)) == QueueForManualReview
  {
  }

  class SendToEventGrid {
    /** The events passed to the Event Grid client, oldest first. */
    var outbound: seq<OutboundEvent>

    constructor ()
      ensures outbound == []
    {
      outbound := [];
    }

    /** `Send`: forward type, subject and payload to the client unchanged. */
    method Send(eventType: Route, subject: string, data: LicensePlateData)
      modifies this
      ensures outbound == old(outbound) + [OutboundEvent(eventType, subject, data)]
    {
      outbound := outbound + [OutboundEvent(eventType, subject, data)];
    }

    /** `SendLicensePlateData`: exactly one event per call, of the type the
        route chooses, with the image's file name as subject and the payload
        as given. */
    method SendLicensePlateData(data: LicensePlateData)
      modifies this
      ensures |outbound| == |old(outbound)| + 1
      ensures outbound[..|old(outbound)|] == old(outbound)
      ensures outbound[|old(outbound)|] == OutboundEvent(ChooseRoute(data), data.fileName, data)
      ensures outbound[|old(outbound)|].eventType == SavePlateData <==> LicensePlateFound(data)
    {
      if LicensePlateFound(data) {
        Send(SavePlateData, data.fileName, data);
      } else {
        Send(QueueForManualReview, data.fileName, data);
      }
    }
  }
}
