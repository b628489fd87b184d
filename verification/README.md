# Saved Messages history shaping — a Dafny model

This project models the core of the Telegram "Saved Messages" manager's client
(`internal/tg/client.go`). The client reads one page of the user's saved-messages
history. It clamps the requested page size and takes the total count from the
kind of reply. It then folds the reverse-chronological batch into display
records: the parts of an album (messages sharing a non-zero `GroupedID`) merge
into the record just before them. It also resolves a message's media to a
download location: for photos it picks a rendition ("thumb size") from the
photo's size list. Deletion is modelled through its two guards.

Modules:

- `TgTypes` (`tg_types.dfy`): the remote library's values the client reads. These are
  messages, media, photos and their size descriptors, documents, web pages and the
  reply kinds of `messages.getHistory` / `messages.getMessages`.
- `PhotoSizes` (`photo_size.dfy`): the rendition policy. `SelectPhotoSize` is the scan
  loop with its early exit. `BestSize` is a declarative statement of the policy, and
  the lemmas characterise it case by case.
- `History` (`history.dfy`): media classification, the display record `SavedMessage`,
  and the grouping loop `GroupHistory`. The loop is proved equal to `GroupedView`. That
  function cuts the batch's messages into album runs (`Albums`) and summarises each run
  (`Summary`). The cut is proved to be the only one that obeys the album rules
  (`IsAlbumPartition`). The record lemmas follow from this.
- `Client` (`client.dfy`): `GetSavedMessages`, `DeleteMessages`, `GetMessageMedia`
  and the pure media case split `LocateMedia`. `GetMessageMedia` runs the one size
  scan, `SelectPhotoSize`, at both places that need it: a photo, and a link
  preview's photo.

Each remote call is a parameter. This covers the history reply, the
getMessages reply, the delete outcome and the downloaded bytes. Each method
returns the requests it would send, so its contract can state what is asked of
the remote side. `c.api == nil` is the parameter `connected == false`.

## Model

| member | source | states |
|---|---|---|
| `Client.EffectiveLimit` | internal/tg/client.go:220-225 | the requested page size is 20 when the limit is at most 0, 100 when above 100, the limit itself otherwise; always within 1..100 |
| `Client.GetSavedMessages` | internal/tg/client.go:215-348 | no request without a client; the request carries the offset and add-offset unchanged and the clamped limit; a failed call, or a reply of a kind other than the three message lists, is an error; otherwise the page is the grouped view of the reply's entries, with total = number of entries for a full list and the server's count for a slice or channel list |
| `History.KindOf` | internal/tg/client.go:268-290 | no medium gives no kind; a photo, document or web-page medium gives its own kind; every other medium gives the generic kind |
| `History.MediaTypeName` | internal/tg/client.go:268-290 | the media_type string is empty exactly for a message without a medium |
| `History.MediaTypeNameInjective` | internal/tg/client.go:268-290 | distinct kinds have distinct media_type strings |
| `History.RenderableByName` | internal/tg/client.go:313 | the attachment test holds exactly when the media_type string is "Photo" or "Document" |
| `History.PreviewOf` | internal/tg/client.go:279-287 | a preview exists exactly for a web-page medium whose page is a full WebPage; it carries that page's site name, title, description and URL, and the kind is then the web-link kind |
| `History.GroupHistory` | internal/tg/client.go:257-345 | the loop that appends records and updates the last one in place yields exactly `GroupedView` of the batch |
| `History.Albums` | internal/tg/client.go:297-344 | the album cut made by the single pass has no empty run and no more runs than messages |
| `History.AlbumsArePartition` | internal/tg/client.go:297-344 | the runs, in order, are exactly the batch's messages; every later member of a run carries the run's non-zero key; no run starts with the non-zero key of the run before it |
| `History.AlbumPartitionUnique` | internal/tg/client.go:297-344 | any cut obeying those album rules is the pass's cut, so the rules determine the grouping completely |
| `History.GroupedViewKeepsIds` | internal/tg/client.go:262-344 | the records' id lists, concatenated in order, are the ids of the Message entries in batch order: non-Message entries are dropped, nothing is lost, duplicated or reordered |
| `History.GroupedViewRecordShape` | internal/tg/client.go:298-330 | every record has a non-empty id list headed by the record's own id; a record with key 0 has exactly one member |
| `History.GroupedViewRecordOfRun` | internal/tg/client.go:298-333 | record k is the summary of run k: id, date, media type, key and preview from its first member; every later member carries the record's non-zero key |
| `History.GroupedViewNoAdjacentSharedKey` | internal/tg/client.go:298-302 | consecutive records never share a non-zero key, because only the last record may absorb a message |
| `History.GroupedViewLast` | internal/tg/client.go:262-344 | the records of a batch are those of all but its last entry, changed by that entry exactly as one iteration of the loop changes them |
| `History.PassIsGroupedView` | internal/tg/client.go:262-344 | applying the per-entry change to each entry in turn from no records yields the album view of the batch |
| `History.PartitionRetract` | internal/tg/client.go:297-344 | a cut obeying the album rules, with its last message taken off, still obeys them and is rebuilt by one step of the pass |
| `History.GroupedViewSkips` | internal/tg/client.go:262-266 | an entry that is not a Message leaves the records unchanged |
| `History.GroupedViewMerges` | internal/tg/client.go:298-319 | a message with the last record's non-zero key only changes that record: its id is appended, its text is adopted if the record had none, and a photo or document adds one attachment at the end |
| `History.GroupedViewStarts` | internal/tg/client.go:322-344 | any other message appends a new record seeded from it alone, with one attachment exactly when its medium is a photo or document |
| `History.SummarySnoc` | internal/tg/client.go:305-318 | extending a run by one member extends its record as the merge step does |
| `History.FirstTextIsFirstNonEmpty` | internal/tg/client.go:308-310 | a record's text is empty only when all members' texts are, and otherwise is the text of the first member that has one |
| `History.AttachmentsAreRenderableMembers` | internal/tg/client.go:313-341 | every attachment is a photo or document member tagged with that member's id and kind, and every photo or document member yields its attachment; there are never more attachments than members, and as many only when every member is a photo or document |
| `History.AttachmentsInMemberOrder` | internal/tg/client.go:313-341 | each member contributes exactly its own attachment, or none, after the attachments of the members before it and before those of the members after it |
| `History.AlbumExample` | internal/tg/client.go:297-344 | a note, a two-part album captioned on its second part, and another note give three records, the album's with ids [104, 103], text "caption" and one photo attachment |
| `PhotoSizes.SelectPhotoSize` | internal/tg/client.go:420-462 | the scan with early exit returns exactly the policy's choice `BestSize`, or nothing when no size is suitable |
| `PhotoSizes.FirstLargeAt` | internal/tg/client.go:425-447 | a considered "w" or "y" with none before it is the first large rendition |
| `PhotoSizes.FirstLargeAbsent` | internal/tg/client.go:425-447 | there is no first large rendition exactly when no considered descriptor is "w" or "y" |
| `PhotoSizes.BestSizeTakesFirstLarge` | internal/tg/client.go:429-432 | the first considered "w" or "y" is chosen, whatever follows it |
| `PhotoSizes.BestSizeFallsBackToMedium` | internal/tg/client.go:433-435 | with no "w" or "y", any considered "x" makes the choice "x" |
| `PhotoSizes.BestSizeFallsBackToLast` | internal/tg/client.go:449-458 | with neither, the last descriptor's type is chosen if it is a PhotoSize or PhotoSizeProgressive with a non-empty type, and nothing otherwise |
| `PhotoSizes.BestSizeFails` | internal/tg/client.go:449-462 | selection fails exactly when all three rules fail, and always on an empty list |
| `PhotoSizes.BestSizeIsOffered` | internal/tg/client.go:425-458 | a chosen size is a non-empty type of some considered descriptor of the list |
| `Client.DeleteMessages` | internal/tg/client.go:351-366 | without a client: an error and no request; an empty id list: success and no request; otherwise one revoking request with the ids as given, failing exactly when the remote call fails |
| `Client.FirstMessage` | internal/tg/client.go:382-402 | a message is found exactly when the reply is one of the three message lists and its first entry is a Message, and then it is that entry |
| `Client.LocateMedia` | internal/tg/client.go:412-547 | a located medium is served as image/jpeg unless it is a document, which is served with its own MIME type; a full document always succeeds with its own id as location; a photo location always names a non-empty rendition |
| `Client.LocateMediaErrors` | internal/tg/client.go:412-547 | each error arises exactly in its own case: unsupported medium, empty photo, empty document, unavailable page, page without photo, empty page photo, no suitable size for a photo or for a page's photo; no other error is returned |
| `Client.LinkPreviewPhotoLikePhoto` | internal/tg/client.go:486-543 | a link preview's photo is located exactly as the same photo sent directly, with the web-page error in place of the photo error |
| `Client.LocatedPhotoUsesPolicy` | internal/tg/client.go:466-471 | a photo location asks for the rendition `BestSize` picks from that photo's sizes |
| `Client.GetMessageMedia` | internal/tg/client.go:369-563 | with a client the message `msgID` is fetched, without one nothing is; without a client, on a failed fetch, or when the first entry is not a message with media: the matching error and no download; otherwise the location and error are those of `LocateMedia`; a failed or empty download is an error; a success returns the non-empty bytes with the located content type |

## Left out

- Connection lifecycle: `NewClient`, `StartAndListen`, the session directory, the auth retry loop and the terminal prompts (internal/tg/client.go:27-187). These are process I/O with no shaping logic.
- The remote calls `MessagesGetHistory`, `MessagesGetMessages` and `MessagesDeleteMessages`, and the downloader stream. Each becomes a parameter holding its outcome. The context argument and cancellation are not modelled.
- Access hashes and file references on photo and document locations, the always-`InputPeerSelf` peer, and the pixel dimensions of size descriptors. They are passed through or only logged.
- The `[DEBUG]` logging.
- GetMessageMedia: the getMessages reply is a parameter, so nothing ties it to `msgID` beyond the fetch the method returns. The Go code does not check the returned message's id either.
- Error values are constructors of `Client.Error`, not the Go message strings.
- `internal/server/server.go` and `main.go`: HTTP routing, query parsing, JSON encoding and signal handling. server.go calls `GetSavedMessages` with three arguments while the function takes four. The four-argument form is modelled, with `addOffset` passed through unchanged.
- A paginated view's cursor controller and its selection and deletion bookkeeping. The client code has neither: it only serves one page per call, so there is nothing of them to model here.
- Integer widths: ids, dates and the int64 album key are unbounded integers. The code only compares them and never does arithmetic on them.
- PhotoSizes.SelectPhotoSize: the Go loop has two identical type-assertion blocks, one for `PhotoSize` and one for `PhotoSizeProgressive`. The model tests both kinds in one condition, which behaves the same.

## Notes on behaviour

- The comment at internal/tg/client.go:449 describes the last-descriptor fallback as covering the case of "only thumbs". The code uses the last descriptor only if it is a `PhotoSize` or `PhotoSizeProgressive` with a non-empty type, and fails otherwise (client.go:450-462). The model follows the code.
- For a full (non-slice) reply, the total is the number of raw entries. That count includes service and empty messages, which produce no record.
- A code comment on `SavedMessage.ID` says it may be "the one with text". The code always uses the first member's id, and so does the model.
