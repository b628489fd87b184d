/**
 * The client operations around the remote calls: reading a page of the saved
 * messages history, deleting messages, and resolving a message's media to a
 * file location and content type. Every remote answer (the history reply, the
 * getMessages reply, the delete outcome, the downloaded bytes) is a parameter;
 * the request the client would send is returned, so the contracts can say
 * what is asked of the remote side.
 */
module Client {
  import opened TgTypes
  import opened History
  import opened PhotoSizes

  datatype Error =
    | ClientNotInitialized
    | GetHistoryFailed(cause: string)
    | UnexpectedHistoryType
    | DeleteFailed(cause: string)
    | GetMessageFailed(cause: string)
    | MediaNotFound
    | PhotoNotAvailable
    | NoSuitablePhotoSize(photoID: int)
    | DocumentNotAvailable
    | WebPageNotAvailable
    | WebPageHasNoPhoto
    | WebPagePhotoNotAvailable
    | NoSuitableWebPagePhotoSize(photoID: int)
    | UnsupportedMedia
    | DownloadFailed(cause: string)
    | DownloadedNothing(msgID: int)

  /** messages.getHistory on the user's own chat. */
  datatype HistoryRequest = HistoryRequest(offsetID: int, limit: int, addOffset: int)

  datatype HistoryPage = HistoryPage(messages: seq<SavedMessage>, total: int)

  datatype DeleteRequest = DeleteRequest(revoke: bool, ids: seq<int>)

  datatype FileLocation =
    | InputPhotoFileLocation(photoID: int, thumbSize: string)
    | InputDocumentFileLocation(documentID: int)

  datatype MediaSource = MediaSource(location: FileLocation, contentType: string)

  datatype MediaFile = MediaFile(data: seq<bv8>, contentType: string)

  const DefaultLimit := 20
  const MaxLimit := 100
  const JpegContentType := "image/jpeg"

  // ---------------------------------------------------------------------------
  // Reading the history

  /** The page size actually requested: non-positive means the default, and at most the maximum. */
  function EffectiveLimit(limit: int): (r: int)
    ensures 1 <= r <= MaxLimit
    ensures 1 <= limit <= MaxLimit ==> r == limit
    ensures limit <= 0 ==> r == DefaultLimit
    ensures limit > MaxLimit ==> r == MaxLimit
  {
    if limit <= 0 then DefaultLimit
    else if limit > MaxLimit then MaxLimit
    else limit
  }

  /**
   * One page of the history: clamp the limit, pass the cursor through, pick the
   * total from the reply's kind, and group the returned entries into records.
   */
  method GetSavedMessages(connected: bool, offsetID: int, limit: int, addOffset: int,
                          reply: Result<MessagesClass, string>)
    returns (request: Option<HistoryRequest>, r: Result<HistoryPage, Error>)
    ensures !connected ==> request == None && r == Failure(ClientNotInitialized)
    ensures connected ==> request == Some(HistoryRequest(offsetID, EffectiveLimit(limit), addOffset))
    ensures connected && reply.Failure? ==> r == Failure(GetHistoryFailed(reply.error))
    ensures connected && reply.Success? && reply.value.MessagesMessagesNotModified? ==>
      r == Failure(UnexpectedHistoryType)
    ensures connected && reply.Success? && !reply.value.MessagesMessagesNotModified? ==>
      r == Success(HistoryPage(
        GroupedView(reply.value.messages),
        if reply.value.MessagesMessages? then |reply.value.messages| else reply.value.count))
  {
    if !connected {
      return None, Failure(ClientNotInitialized);
    }

    var lim := limit;
    if lim <= 0 {
      lim := DefaultLimit;
    }
    if lim > MaxLimit {
      lim := MaxLimit;
    }

    request := Some(HistoryRequest(offsetID, lim, addOffset));
    if reply.Failure? {
      return request, Failure(GetHistoryFailed(reply.error));
    }

    var messages: seq<MessageClass>;
    var totalCount: int;
    match reply.value {
      case MessagesMessages(ms) =>
        messages := ms;
        totalCount := |ms|;
      case MessagesMessagesSlice(ms, count) =>
        messages := ms;
        totalCount := count;
      case MessagesChannelMessages(ms, count) =>
        messages := ms;
        totalCount := count;
      case MessagesMessagesNotModified(_) =>
        return request, Failure(UnexpectedHistoryType);
    }

    var result := GroupHistory(messages);
    r := Success(HistoryPage(result, totalCount));
  }

  // ---------------------------------------------------------------------------
  // Deleting

  /** Deletion for everyone; an empty id list succeeds without a remote call. */
  method DeleteMessages(connected: bool, ids: seq<int>, remoteError: Option<string>)
    returns (request: Option<DeleteRequest>, err: Option<Error>)
    ensures !connected ==> request == None && err == Some(ClientNotInitialized)
    ensures connected && ids == [] ==> request == None && err == None
    ensures connected && ids != [] ==>
      request == Some(DeleteRequest(true, ids)) &&
      err == if remoteError.Some? then Some(DeleteFailed(remoteError.value)) else None
  {
    if !connected {
      return None, Some(ClientNotInitialized);
    }
    if |ids| == 0 {
      return None, None;
    }
    request := Some(DeleteRequest(true, ids));
    err := if remoteError.Some? then Some(DeleteFailed(remoteError.value)) else None;
  }

  // ---------------------------------------------------------------------------
  // Resolving media

  /** The message a getMessages reply carries, if its first entry is a Message. */
  function FirstMessage(reply: MessagesClass): (msg: Option<RawMessage>)
    ensures msg.Some? <==>
      !reply.MessagesMessagesNotModified? && |reply.messages| > 0 && reply.messages[0].Message?
    ensures msg.Some? ==> reply.messages[0] == Message(msg.value)
  {
    if reply.MessagesMessagesNotModified? || |reply.messages| == 0 || !reply.messages[0].Message? then None
    else Some(reply.messages[0].msg)
  }

  /** Where a medium is downloaded from and which content type is served with it. */
  function LocateMedia(media: MessageMediaClass): (r: Result<MediaSource, Error>)
    ensures r.Success? ==>
      r.value.contentType ==
        if media.MessageMediaDocument? && media.document.Document? then media.document.mimeType else JpegContentType
    ensures r.Success? && r.value.location.InputPhotoFileLocation? ==> r.value.location.thumbSize != ""
    ensures media.MessageMediaDocument? && media.document.Document? ==>
      r == Success(MediaSource(InputDocumentFileLocation(media.document.id), media.document.mimeType))
  {
    match media
    case MessageMediaPhoto(photo) =>
      if !photo.Photo? then Failure(PhotoNotAvailable)
      else
        BestSizeIsOffered(photo.sizes);
        (match BestSize(photo.sizes)
         case None => Failure(NoSuitablePhotoSize(photo.id))
         case Some(size) => Success(MediaSource(InputPhotoFileLocation(photo.id, size), JpegContentType)))
    case MessageMediaDocument(doc) =>
      if !doc.Document? then Failure(DocumentNotAvailable)
      else Success(MediaSource(InputDocumentFileLocation(doc.id), doc.mimeType))
    case MessageMediaWebPage(page) =>
      if !page.WebPage? then Failure(WebPageNotAvailable)
      else if page.photo.None? then Failure(WebPageHasNoPhoto)
      else if !page.photo.value.Photo? then Failure(WebPagePhotoNotAvailable)
      else
        var photo := page.photo.value;
        BestSizeIsOffered(photo.sizes);
        (match BestSize(photo.sizes)
         case None => Failure(NoSuitableWebPagePhotoSize(photo.id))
         case Some(size) => Success(MediaSource(InputPhotoFileLocation(photo.id, size), JpegContentType)))
    case OtherMessageMedia => Failure(UnsupportedMedia)
  }

  /**
   * Which media cannot be located, and with which error: each error names
   * exactly one way the medium falls short.
   */
  lemma LocateMediaErrors(media: MessageMediaClass)
    ensures LocateMedia(media) == Failure(UnsupportedMedia) <==> media.OtherMessageMedia?
    ensures LocateMedia(media) == Failure(PhotoNotAvailable) <==>
      media.MessageMediaPhoto? && !media.photo.Photo?
    ensures LocateMedia(media) == Failure(DocumentNotAvailable) <==>
      media.MessageMediaDocument? && !media.document.Document?
    ensures LocateMedia(media) == Failure(WebPageNotAvailable) <==>
      media.MessageMediaWebPage? && !media.webpage.WebPage?
    ensures LocateMedia(media) == Failure(WebPageHasNoPhoto) <==>
      media.MessageMediaWebPage? && media.webpage.WebPage? && media.webpage.photo.None?
    ensures LocateMedia(media) == Failure(WebPagePhotoNotAvailable) <==>
      media.MessageMediaWebPage? && media.webpage.WebPage? && media.webpage.photo.Some? &&
      !media.webpage.photo.value.Photo?
    ensures (LocateMedia(media).Failure? && LocateMedia(media).error.NoSuitablePhotoSize?) <==>
      media.MessageMediaPhoto? && media.photo.Photo? && BestSize(media.photo.sizes).None?
    ensures (LocateMedia(media).Failure? && LocateMedia(media).error.NoSuitableWebPagePhotoSize?) <==>
      media.MessageMediaWebPage? && media.webpage.WebPage? && media.webpage.photo.Some? &&
      media.webpage.photo.value.Photo? && BestSize(media.webpage.photo.value.sizes).None?
    ensures LocateMedia(media).Failure? ==>
      LocateMedia(media).error in {UnsupportedMedia, PhotoNotAvailable, DocumentNotAvailable, WebPageNotAvailable,
                                   WebPageHasNoPhoto, WebPagePhotoNotAvailable} ||
      LocateMedia(media).error.NoSuitablePhotoSize? || LocateMedia(media).error.NoSuitableWebPagePhotoSize?
  {
  }

  /**
   * A photo and the same photo inside a link preview are located alike: same
   * file, same rendition, same content type, and a failure to choose a
   * rendition in one is a failure in the other.
   */
  lemma LinkPreviewPhotoLikePhoto(photo: PhotoClass, siteName: string, title: string,
                                  description: string, url: string)
    requires photo.Photo?
    ensures var direct := LocateMedia(MessageMediaPhoto(photo));
      var preview := LocateMedia(MessageMediaWebPage(WebPage(siteName, title, description, url, Some(photo))));
      (direct.Success? <==> preview.Success?) &&
      (direct.Success? ==> direct == preview) &&
      (direct.Failure? ==> direct.error == NoSuitablePhotoSize(photo.id) &&
                           preview.error == NoSuitableWebPagePhotoSize(photo.id))
  {
  }

  /** A located photo is requested at the rendition the size policy picks from its list. */
  lemma LocatedPhotoUsesPolicy(media: MessageMediaClass)
    requires LocateMedia(media).Success?
    requires LocateMedia(media).value.location.InputPhotoFileLocation?
    ensures var photo := if media.MessageMediaPhoto? then media.photo else media.webpage.photo.value;
      photo.Photo? &&
      LocateMedia(media).value.location == InputPhotoFileLocation(photo.id, BestSize(photo.sizes).value)
  {
  }

  /**
   * Fetch the message, find its medium, choose where to download it from (the
   * size scan runs for a photo and for a link preview's photo), then download.
   */
  method GetMessageMedia(connected: bool, msgID: int, reply: Result<MessagesClass, string>,
                         download: Result<seq<bv8>, string>)
    returns (fetch: Option<int>, requested: Option<FileLocation>, r: Result<MediaFile, Error>)
    ensures fetch == if connected then Some(msgID) else None
    ensures !connected ==> requested == None && r == Failure(ClientNotInitialized)
    ensures connected && reply.Failure? ==> requested == None && r == Failure(GetMessageFailed(reply.error))
    ensures connected && reply.Success? ==>
      var msg := FirstMessage(reply.value);
      if msg.None? || msg.value.media.None? then requested == None && r == Failure(MediaNotFound)
      else
        var located := LocateMedia(msg.value.media.value);
        if located.Failure? then requested == None && r == Failure(located.error)
        else
          requested == Some(located.value.location) &&
          r == if download.Failure? then Failure(DownloadFailed(download.error))
               else if download.value == [] then Failure(DownloadedNothing(msgID))
               else Success(MediaFile(download.value, located.value.contentType))
    ensures r.Success? ==> r.value.data != []
  {
    fetch, requested := None, None;
    if !connected {
      return fetch, requested, Failure(ClientNotInitialized);
    }
    fetch := Some(msgID);
    if reply.Failure? {
      return fetch, requested, Failure(GetMessageFailed(reply.error));
    }

    var msg := FirstMessage(reply.value);
    if msg.None? || msg.value.media.None? {
      return fetch, requested, Failure(MediaNotFound);
    }

    var location: FileLocation;
    var contentType := "application/octet-stream";
    match msg.value.media.value {
      case MessageMediaPhoto(photo) =>
        contentType := JpegContentType;
        if !photo.Photo? {
          return fetch, requested, Failure(PhotoNotAvailable);
        }
        var bestSize := SelectPhotoSize(photo.sizes);
        if bestSize.None? {
          return fetch, requested, Failure(NoSuitablePhotoSize(photo.id));
        }
        location := InputPhotoFileLocation(photo.id, bestSize.value);
      case MessageMediaDocument(doc) =>
        if !doc.Document? {
          return fetch, requested, Failure(DocumentNotAvailable);
        }
        contentType := doc.mimeType;
        location := InputDocumentFileLocation(doc.id);
      case MessageMediaWebPage(page) =>
        if !page.WebPage? {
          return fetch, requested, Failure(WebPageNotAvailable);
        }
        if page.photo.None? {
          return fetch, requested, Failure(WebPageHasNoPhoto);
        }
        contentType := JpegContentType;
        var photo := page.photo.value;
        if !photo.Photo? {
          return fetch, requested, Failure(WebPagePhotoNotAvailable);
        }
        var bestSize := SelectPhotoSize(photo.sizes);
        if bestSize.None? {
          return fetch, requested, Failure(NoSuitableWebPagePhotoSize(photo.id));
        }
        location := InputPhotoFileLocation(photo.id, bestSize.value);
      case OtherMessageMedia =>
        return fetch, requested, Failure(UnsupportedMedia);
    }

    requested := Some(location);
    if download.Failure? {
      return fetch, requested, Failure(DownloadFailed(download.error));
    }
    if |download.value| == 0 {
      return fetch, requested, Failure(DownloadedNothing(msgID));
    }
    r := Success(MediaFile(download.value, contentType));
  }
}
