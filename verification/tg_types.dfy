/**
 * The values the remote Telegram library hands to the client, reduced to the
 * parts the history shaping and media resolution read, plus the two small
 * wrappers used for optional values and error returns.
 */
module TgTypes {

  datatype Option<+T> = None | Some(value: T)

  datatype Result<+T, +E> = Success(value: T) | Failure(error: E)

  /** One entry of a photo's list of renditions; only the first two kinds are considered. */
  datatype PhotoSizeClass =
    | PhotoSize(sizeType: string)
    | PhotoSizeProgressive(sizeType: string)
    /** PhotoSizeEmpty, PhotoCachedSize, PhotoStrippedSize, PhotoPathSize */
    | OtherPhotoSize(sizeType: string)

  datatype PhotoClass =
    | PhotoEmpty(id: int)
    | Photo(id: int, sizes: seq<PhotoSizeClass>)

  datatype DocumentClass =
    | DocumentEmpty(id: int)
    | Document(id: int, mimeType: string)

  datatype WebPageClass =
    | WebPage(siteName: string, title: string, description: string, url: string,
              photo: Option<PhotoClass>)
    /** WebPageEmpty, WebPagePending, WebPageNotModified */
    | WebPageUnavailable

  datatype MessageMediaClass =
    | MessageMediaPhoto(photo: PhotoClass)
    | MessageMediaDocument(document: DocumentClass)
    | MessageMediaWebPage(webpage: WebPageClass)
    /** every other media constructor: geo, contact, poll, dice, ... */
    | OtherMessageMedia

  /** The fields of a tg.Message the client reads. A group key of 0 means "not in an album". */
  datatype RawMessage = RawMessage(
    id: int,
    date: int,
    text: string,
    groupedID: int,
    media: Option<MessageMediaClass>)

  datatype MessageClass =
    | Message(msg: RawMessage)
    | MessageService(id: int)
    | MessageEmpty(id: int)

  /** The shapes a messages.getHistory or messages.getMessages reply can take. */
  datatype MessagesClass =
    | MessagesMessages(messages: seq<MessageClass>)
    | MessagesMessagesSlice(messages: seq<MessageClass>, count: int)
    | MessagesChannelMessages(messages: seq<MessageClass>, count: int)
    | MessagesMessagesNotModified(count: int)
}
