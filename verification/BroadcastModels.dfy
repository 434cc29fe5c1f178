/** Broadcast messages, delivery results and statuses (services/broadcasts/models.py). */
module BroadcastModels {
  import opened Prelude

  datatype MediaType = Photo | Video | Animation | Audio | Document

  datatype Media = Media(kind: MediaType, fileId: string, fileName: Option<string>)

  datatype Button = Button(kind: string, text: string, url: string)

  datatype BroadcastMessage = BroadcastMessage(
    text: string,
    media: seq<Media>,
    button: Option<Button>,
    disableNotification: bool,
    pin: bool)
  {
    predicate IsAlbum() {
      |media| > 1
    }

    predicate TextWithButton() {
      IsAlbum() && button.Some?
    }

    /** How many messages one person receives. */
    function Cost(): nat {
      (if |media| > 1 then |media| else 1) + (if TextWithButton() then 1 else 0)
    }
  }

  datatype DeliveryStatus = Sent | Blocked | Failed

  datatype SendResult = SendResult(
    status: DeliveryStatus,
    messageId: Option<int>,
    retryAfter: Option<real>,
    unauthorized: bool,
    networkError: bool)
  {
    predicate Ok() {
      status == Sent
    }
  }

  datatype BroadcastStatus = Running | CancelRequested | Canceled | Done | Failed

  predicate Active(status: BroadcastStatus) {
    status == Running || status == CancelRequested
  }
}
