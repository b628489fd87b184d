/**
 * How one reverse-chronological history batch becomes display records: each
 * Message entry is classified by its media, and an entry joins the record just
 * before it when both carry the same non-zero album key; otherwise it starts a
 * record of its own.
 */
module History {
  import opened TgTypes

  /** The media_type strings "", "Photo", "Document", "WebLink" and "Media". */
  datatype MediaKind = NoMedia | PhotoMedia | DocumentMedia | WebLinkMedia | OtherMedia

  datatype MediaItem = MediaItem(id: int, kind: MediaKind)

  datatype WebPagePreview = WebPagePreview(siteName: string, title: string, description: string, url: string)

  /** A display record; `ids` lists every message folded into it, for deletion. */
  datatype SavedMessage = SavedMessage(
    id: int,
    ids: seq<int>,
    date: int,
    message: string,
    mediaType: MediaKind,
    attachments: seq<MediaItem>,
    groupedID: int,
    webPreview: Option<WebPagePreview>)

  /** The media_type string a kind stands for. */
  function MediaTypeName(k: MediaKind): (name: string)
    ensures name == "" <==> k == NoMedia
  {
    match k
    case NoMedia => ""
    case PhotoMedia => "Photo"
    case DocumentMedia => "Document"
    case WebLinkMedia => "WebLink"
    case OtherMedia => "Media"
  }

  /** The media classification: a message's medium, by constructor only. */
  function KindOf(media: Option<MessageMediaClass>): (k: MediaKind)
    ensures k == NoMedia <==> media.None?
    ensures k == PhotoMedia <==> media.Some? && media.value.MessageMediaPhoto?
    ensures k == DocumentMedia <==> media.Some? && media.value.MessageMediaDocument?
    ensures k == WebLinkMedia <==> media.Some? && media.value.MessageMediaWebPage?
    ensures k == OtherMedia <==> media == Some(OtherMessageMedia)
  {
    match media
    case None => NoMedia
    case Some(MessageMediaPhoto(_)) => PhotoMedia
    case Some(MessageMediaDocument(_)) => DocumentMedia
    case Some(MessageMediaWebPage(_)) => WebLinkMedia
    case Some(OtherMessageMedia) => OtherMedia
  }

  /** A preview exists only for a web-page medium whose page is fully loaded. */
  function PreviewOf(media: Option<MessageMediaClass>): (p: Option<WebPagePreview>)
    ensures p.Some? <==> media.Some? && media.value.MessageMediaWebPage? && media.value.webpage.WebPage?
    ensures p.Some? ==> KindOf(media) == WebLinkMedia
    ensures p.Some? ==>
      var page := media.value.webpage;
      p.value == WebPagePreview(page.siteName, page.title, page.description, page.url)
  {
    match media
    case Some(MessageMediaWebPage(WebPage(site, title, description, url, _))) =>
      Some(WebPagePreview(site, title, description, url))
    case _ => None
  }

  /** Distinct kinds have distinct media_type strings, so the kind loses nothing the string carried. */
  lemma MediaTypeNameInjective(a: MediaKind, b: MediaKind)
    ensures MediaTypeName(a) == MediaTypeName(b) ==> a == b
  {
  }

  /** Photos and documents are the kinds listed as attachments. */
  predicate Renderable(k: MediaKind) {
    k == PhotoMedia || k == DocumentMedia
  }

  /** The attachment test on kinds is the test on media_type strings against "Photo" and "Document". */
  lemma RenderableByName(k: MediaKind)
    ensures Renderable(k) <==> MediaTypeName(k) == "Photo" || MediaTypeName(k) == "Document"
  {
  }

  function AttachmentOf(m: RawMessage): seq<MediaItem> {
    if Renderable(KindOf(m.media)) then [MediaItem(m.id, KindOf(m.media))] else []
  }

  /** The Message entries of a batch, in batch order. */
  function Messages(entries: seq<MessageClass>): seq<RawMessage> {
    if entries == [] then []
    else
      var e := entries[|entries| - 1];
      Messages(entries[..|entries| - 1]) + (if e.Message? then [e.msg] else [])
  }

  function Ids(ms: seq<RawMessage>): (r: seq<int>)
    ensures |r| == |ms|
  {
    if ms == [] then [] else [ms[0].id] + Ids(ms[1..])
  }

  /** The first non-empty text among the messages, or "" if all are empty. */
  function FirstText(ms: seq<RawMessage>): string {
    if ms == [] then ""
    else if ms[0].text != "" then ms[0].text
    else FirstText(ms[1..])
  }

  /** One attachment per photo or document message, in message order. */
  function Attachments(ms: seq<RawMessage>): seq<MediaItem> {
    if ms == [] then [] else AttachmentOf(ms[0]) + Attachments(ms[1..])
  }

  /**
   * The record an album run is shown as: identity, date, media type, key and
   * preview from its first member; text from the first member that has one.
   */
  function Summary(run: seq<RawMessage>): SavedMessage
    requires run != []
  {
    SavedMessage(
      run[0].id,
      Ids(run),
      run[0].date,
      FirstText(run),
      KindOf(run[0].media),
      Attachments(run),
      run[0].groupedID,
      PreviewOf(run[0].media))
  }

  function Flatten(runs: seq<seq<RawMessage>>): seq<RawMessage> {
    if runs == [] then [] else Flatten(runs[..|runs| - 1]) + runs[|runs| - 1]
  }

  /** Every member after the first carries the run's non-zero key. */
  ghost predicate SharesKey(run: seq<RawMessage>) {
    forall j :: 0 < j < |run| ==> run[j].groupedID != 0 && run[j].groupedID == run[0].groupedID
  }

  /** A run beginning with the non-zero key of the run before it would have been folded into that run. */
  ghost predicate StartsFresh(prev: seq<RawMessage>, run: seq<RawMessage>) {
    prev != [] && run != [] ==> run[0].groupedID == 0 || run[0].groupedID != prev[0].groupedID
  }

  /**
   * The album rules, stated on a cut of `ms` into runs: the runs, in order,
   * are exactly `ms`; none is empty and each shares its key; and each starts
   * fresh with respect to the run before it.
   */
  ghost predicate IsAlbumPartition(ms: seq<RawMessage>, runs: seq<seq<RawMessage>>) {
    && Flatten(runs) == ms
    && (forall k :: 0 <= k < |runs| ==> runs[k] != [] && SharesKey(runs[k]))
    && (forall k :: 0 < k < |runs| ==> StartsFresh(runs[k - 1], runs[k]))
  }

  predicate JoinsLastRun(runs: seq<seq<RawMessage>>, m: RawMessage) {
    m.groupedID != 0 && |runs| > 0 && runs[|runs| - 1] != [] &&
    runs[|runs| - 1][0].groupedID == m.groupedID
  }

  /** One message of the pass: fold it into the last run when it carries that run's non-zero key, else start a run. */
  function AlbumStep(runs: seq<seq<RawMessage>>, m: RawMessage): (next: seq<seq<RawMessage>>)
    requires forall k :: 0 <= k < |runs| ==> runs[k] != []
    ensures forall k :: 0 <= k < |next| ==> next[k] != []
    ensures |next| <= |runs| + 1
  {
    if JoinsLastRun(runs, m) then runs[..|runs| - 1] + [runs[|runs| - 1] + [m]]
    else runs + [[m]]
  }

  /** The runs a single pass with one-run lookback cuts `ms` into. */
  function Albums(ms: seq<RawMessage>): (runs: seq<seq<RawMessage>>)
    ensures forall k :: 0 <= k < |runs| ==> runs[k] != []
    ensures |runs| <= |ms|
  {
    if ms == [] then []
    else AlbumStep(Albums(ms[..|ms| - 1]), ms[|ms| - 1])
  }

  function Summaries(runs: seq<seq<RawMessage>>): (records: seq<SavedMessage>)
    requires forall k :: 0 <= k < |runs| ==> runs[k] != []
    ensures |records| == |runs|
  {
    seq(|runs|, k requires 0 <= k < |runs| => Summary(runs[k]))
  }

  /** The records a batch is shown as. */
  function GroupedView(entries: seq<MessageClass>): seq<SavedMessage> {
    Summaries(Albums(Messages(entries)))
  }

  function AllIds(records: seq<SavedMessage>): seq<int> {
    if records == [] then [] else AllIds(records[..|records| - 1]) + records[|records| - 1].ids
  }

  // ---------------------------------------------------------------------------
  // Facts about the helpers

  lemma {:induction false} FlattenSnoc(runs: seq<seq<RawMessage>>, run: seq<RawMessage>)
    ensures Flatten(runs + [run]) == Flatten(runs) + run
  {
    assert (runs + [run])[..|runs|] == runs;
  }

  lemma {:induction false} FlattenEmpty(runs: seq<seq<RawMessage>>)
    requires forall k :: 0 <= k < |runs| ==> runs[k] != []
    ensures Flatten(runs) == [] <==> runs == []
  {
  }

  lemma {:induction false} IdsAppend(a: seq<RawMessage>, b: seq<RawMessage>)
    ensures Ids(a + b) == Ids(a) + Ids(b)
  {
    if a != [] {
      assert (a + b)[1..] == a[1..] + b;
      IdsAppend(a[1..], b);
    } else {
      assert a + b == b;
    }
  }

  lemma {:induction false} FirstTextSnoc(ms: seq<RawMessage>, m: RawMessage)
    ensures FirstText(ms + [m]) == if FirstText(ms) != "" then FirstText(ms) else m.text
  {
    if ms != [] {
      assert (ms + [m])[1..] == ms[1..] + [m];
      FirstTextSnoc(ms[1..], m);
    }
  }

  lemma {:induction false} AttachmentsSnoc(ms: seq<RawMessage>, m: RawMessage)
    ensures Attachments(ms + [m]) == Attachments(ms) + AttachmentOf(m)
  {
    if ms != [] {
      assert (ms + [m])[1..] == ms[1..] + [m];
      AttachmentsSnoc(ms[1..], m);
    } else {
      assert [m][1..] == [];
    }
  }

  /** Folding one more member into a run extends its record as the merge step does. */
  lemma SummarySnoc(run: seq<RawMessage>, m: RawMessage)
    requires run != []
    ensures Summary(run + [m]) ==
      var r := Summary(run);
      r.(ids := r.ids + [m.id],
         message := if r.message == "" && m.text != "" then m.text else r.message,
         attachments := r.attachments + AttachmentOf(m))
  {
    IdsAppend(run, [m]);
    FirstTextSnoc(run, m);
    AttachmentsSnoc(run, m);
  }

  lemma MessagesSnoc(entries: seq<MessageClass>, e: MessageClass)
    ensures Messages(entries + [e]) == Messages(entries) + (if e.Message? then [e.msg] else [])
  {
    assert (entries + [e])[..|entries|] == entries;
  }

  lemma AlbumsSnoc(ms: seq<RawMessage>, m: RawMessage)
    ensures Albums(ms + [m]) == AlbumStep(Albums(ms), m)
  {
    assert (ms + [m])[..|ms|] == ms;
  }

  // ---------------------------------------------------------------------------
  // The album cut is the unique cut obeying the album rules

  /** Replacing the last run by one with the same first member and a shared key keeps the per-run rules. */
  lemma RulesReplaceLast(runs: seq<seq<RawMessage>>, run: seq<RawMessage>)
    requires runs != [] && run != [] && runs[|runs| - 1] != [] && run[0] == runs[|runs| - 1][0]
    requires SharesKey(run)
    requires forall k :: 0 <= k < |runs| ==> runs[k] != [] && SharesKey(runs[k])
    requires forall k :: 0 < k < |runs| ==> StartsFresh(runs[k - 1], runs[k])
    ensures var next := runs[..|runs| - 1] + [run];
      && (forall k :: 0 <= k < |next| ==> next[k] != [] && SharesKey(next[k]))
      && (forall k :: 0 < k < |next| ==> StartsFresh(next[k - 1], next[k]))
  {
  }

  /** Folding a message into the last run keeps the album rules. */
  lemma PartitionJoin(ms: seq<RawMessage>, runs: seq<seq<RawMessage>>, m: RawMessage)
    requires IsAlbumPartition(ms, runs) && JoinsLastRun(runs, m)
    ensures IsAlbumPartition(ms + [m], runs[..|runs| - 1] + [runs[|runs| - 1] + [m]])
  {
  }

  /** Starting a new run with a message that does not join the last one keeps the album rules. */
  lemma PartitionStart(ms: seq<RawMessage>, runs: seq<seq<RawMessage>>, m: RawMessage)
    requires IsAlbumPartition(ms, runs) && !JoinsLastRun(runs, m)
    ensures IsAlbumPartition(ms + [m], runs + [[m]])
  {
  }

  /** The runs produced by the pass obey the album rules. */
  lemma {:induction false} AlbumsArePartition(ms: seq<RawMessage>)
    ensures IsAlbumPartition(ms, Albums(ms))
  {
    if ms != [] {
      var p, m := ms[..|ms| - 1], ms[|ms| - 1];
      assert ms == p + [m];
      AlbumsArePartition(p);
      AlbumsSnoc(p, m);
      if JoinsLastRun(Albums(p), m) {
        PartitionJoin(p, Albums(p), m);
      } else {
        PartitionStart(p, Albums(p), m);
      }
    }
  }

  /** If `a + b` ends with `x` and `b` is not empty, `b` ends with `x` and the rest is `c`. */
  lemma SplitLast<T>(a: seq<T>, b: seq<T>, c: seq<T>, x: T)
    requires a + b == c + [x] && b != []
    ensures b[|b| - 1] == x && a + b[..|b| - 1] == c
  {
    assert b[|b| - 1] == (a + b)[|a + b| - 1];
    assert a + b[..|b| - 1] == (a + b)[..|c|];
  }

  /** In a cut obeying the rules, the last run ends with the last message. */
  lemma PartitionLast(ms: seq<RawMessage>, runs: seq<seq<RawMessage>>, m: RawMessage)
    requires Flatten(runs) == ms + [m]
    requires runs != [] && runs[|runs| - 1] != []
    ensures var last := runs[|runs| - 1];
      last[|last| - 1] == m && Flatten(runs[..|runs| - 1]) + last[..|last| - 1] == ms
  {
    var n := |runs|;
    var front, last := runs[..n - 1], runs[n - 1];
    SplitLast(Flatten(front), last, ms, m);
  }

  /** Taking the last message off a longer last run keeps the album rules. */
  lemma PartitionShrinkLast(ms: seq<RawMessage>, runs: seq<seq<RawMessage>>, m: RawMessage)
    requires IsAlbumPartition(ms + [m], runs)
    requires runs != [] && |runs[|runs| - 1]| > 1
    ensures var n := |runs|; var last := runs[n - 1];
      IsAlbumPartition(ms, runs[..n - 1] + [last[..|last| - 1]])
  {
    var n := |runs|;
    var front, last := runs[..n - 1], runs[n - 1];
    var cut := last[..|last| - 1];
    assert Flatten(front + [cut]) == ms by {
      PartitionLast(ms, runs, m);
      FlattenSnoc(front, cut);
    }
    assert SharesKey(cut) by {
      assert SharesKey(last);
      forall j | 0 < j < |cut| ensures cut[j].groupedID != 0 && cut[j].groupedID == cut[0].groupedID {
        assert cut[j] == last[j];
      }
    }
    RulesReplaceLast(runs, cut);
  }

  /** Dropping a one-message last run keeps the album rules. */
  lemma PartitionDropLastRun(ms: seq<RawMessage>, runs: seq<seq<RawMessage>>, m: RawMessage)
    requires IsAlbumPartition(ms + [m], runs)
    requires runs != [] && |runs[|runs| - 1]| == 1
    ensures IsAlbumPartition(ms, runs[..|runs| - 1])
  {
    PartitionLast(ms, runs, m);
    var front := runs[..|runs| - 1];
    assert runs[|runs| - 1][..0] == [];
    forall k | 0 <= k < |front|
      ensures front[k] != [] && SharesKey(front[k])
    {
      assert front[k] == runs[k];
    }
    forall k | 0 < k < |front|
      ensures StartsFresh(front[k - 1], front[k])
    {
      assert front[k - 1] == runs[k - 1] && front[k] == runs[k];
    }
  }

  /** A cut with the last message taken off its last run (and the run dropped if that empties it). */
  function Retract(runs: seq<seq<RawMessage>>): seq<seq<RawMessage>>
    requires runs != []
  {
    var last := runs[|runs| - 1];
    if |last| > 1 then runs[..|runs| - 1] + [last[..|last| - 1]] else runs[..|runs| - 1]
  }

  /** A last run of several members sharing its key is rebuilt by the pass's merge step. */
  lemma RetractJoin(runs: seq<seq<RawMessage>>, m: RawMessage)
    requires runs != [] && |runs[|runs| - 1]| > 1
    requires forall k :: 0 <= k < |runs| ==> runs[k] != []
    requires SharesKey(runs[|runs| - 1]) && runs[|runs| - 1][|runs[|runs| - 1]| - 1] == m
    ensures AlbumStep(Retract(runs), m) == runs
  {
    var n := |runs|;
    var front, last := runs[..n - 1], runs[n - 1];
    var cut := last[..|last| - 1];
    var prev := front + [cut];
    assert Retract(runs) == prev;
    assert prev[|prev| - 1] == cut && prev[..|prev| - 1] == front;
    assert cut[0] == last[0];
    assert m.groupedID != 0 && m.groupedID == last[0].groupedID;
    assert JoinsLastRun(prev, m);
    assert last == cut + [m];
    assert runs == front + [last];
  }

  /** A one-member last run that starts fresh is rebuilt by the pass's start step. */
  lemma RetractStart(runs: seq<seq<RawMessage>>, m: RawMessage)
    requires runs != [] && runs[|runs| - 1] == [m]
    requires forall k :: 0 <= k < |runs| ==> runs[k] != []
    requires |runs| > 1 ==> StartsFresh(runs[|runs| - 2], runs[|runs| - 1])
    ensures AlbumStep(Retract(runs), m) == runs
  {
  }

  /** Any cut of `ms + [m]` obeying the album rules is one pass step after a cut of `ms` obeying them. */
  lemma PartitionRetract(ms: seq<RawMessage>, runs: seq<seq<RawMessage>>, m: RawMessage)
    requires IsAlbumPartition(ms + [m], runs)
    ensures runs != []
    ensures IsAlbumPartition(ms, Retract(runs))
    ensures AlbumStep(Retract(runs), m) == runs
  {
    PartitionLast(ms, runs, m);
    var n := |runs|;
    var last := runs[n - 1];
    if |last| > 1 {
      PartitionShrinkLast(ms, runs, m);
      RetractJoin(runs, m);
    } else {
      PartitionDropLastRun(ms, runs, m);
      assert last == [m] by {
        assert last == last[..|last| - 1] + [m];
      }
      RetractStart(runs, m);
    }
  }

  /** Any cut obeying the album rules is the one the pass produces. */
  lemma {:induction false} AlbumPartitionUnique(ms: seq<RawMessage>, runs: seq<seq<RawMessage>>)
    requires IsAlbumPartition(ms, runs)
    ensures runs == Albums(ms)
    decreases |ms|
  {
    if ms == [] {
      FlattenEmpty(runs);
    } else {
      var p, m := ms[..|ms| - 1], ms[|ms| - 1];
      assert ms == p + [m];
      PartitionRetract(p, runs, m);
      AlbumPartitionUnique(p, Retract(runs));
      AlbumsSnoc(p, m);
    }
  }

  // ---------------------------------------------------------------------------
  // Properties of the records

  lemma {:induction false} AllIdsOfSummaries(runs: seq<seq<RawMessage>>)
    requires forall k :: 0 <= k < |runs| ==> runs[k] != []
    ensures AllIds(Summaries(runs)) == Ids(Flatten(runs))
  {
    if runs != [] {
      var n := |runs|;
      var front := runs[..n - 1];
      assert Summaries(runs)[..n - 1] == Summaries(front);
      AllIdsOfSummaries(front);
      IdsAppend(Flatten(front), runs[n - 1]);
    }
  }

  lemma GroupedViewKeepsIds(entries: seq<MessageClass>)
    ensures AllIds(GroupedView(entries)) == Ids(Messages(entries))
  {
    var ms := Messages(entries);
    AlbumsArePartition(ms);
    AllIdsOfSummaries(Albums(ms));
  }

  /**
   * Every record names its first member, which heads its id list; a record
   * without an album key has exactly one member.
   */
  lemma GroupedViewRecordShape(entries: seq<MessageClass>)
    ensures forall r :: r in GroupedView(entries) ==>
      |r.ids| >= 1 && r.ids[0] == r.id && (r.groupedID == 0 ==> |r.ids| == 1)
  {
    var runs := Albums(Messages(entries));
    AlbumsArePartition(Messages(entries));
    forall r | r in GroupedView(entries)
      ensures |r.ids| >= 1 && r.ids[0] == r.id && (r.groupedID == 0 ==> |r.ids| == 1)
    {
      var k :| 0 <= k < |runs| && r == Summary(runs[k]);
      if |runs[k]| > 1 {
        assert runs[k][1].groupedID != 0 && runs[k][1].groupedID == r.groupedID;
      }
    }
  }

  /**
   * Record k is the summary of run k of the album cut, whose later members
   * all share the record's non-zero key.
   */
  lemma GroupedViewRecordOfRun(entries: seq<MessageClass>, k: int)
    requires 0 <= k < |GroupedView(entries)|
    ensures var run := Albums(Messages(entries))[k];
      GroupedView(entries)[k] == Summary(run) &&
      forall j :: 0 < j < |run| ==>
        run[j].groupedID != 0 && run[j].groupedID == GroupedView(entries)[k].groupedID
  {
    AlbumsArePartition(Messages(entries));
  }

  /** Only the last record can absorb: consecutive records never share a non-zero key. */
  lemma GroupedViewNoAdjacentSharedKey(entries: seq<MessageClass>)
    ensures var g := GroupedView(entries);
      forall k :: 0 < k < |g| ==> g[k].groupedID == 0 || g[k].groupedID != g[k - 1].groupedID
  {
    AlbumsArePartition(Messages(entries));
  }

  /** A record's text is the first non-empty text among its members, in member order. */
  lemma {:induction false} FirstTextIsFirstNonEmpty(ms: seq<RawMessage>)
    ensures FirstText(ms) == "" <==> forall j :: 0 <= j < |ms| ==> ms[j].text == ""
    ensures FirstText(ms) != "" ==>
      exists j :: 0 <= j < |ms| && ms[j].text == FirstText(ms) &&
        forall i :: 0 <= i < j ==> ms[i].text == ""
  {
    if ms != [] && ms[0].text == "" {
      FirstTextIsFirstNonEmpty(ms[1..]);
      assert forall j :: 1 <= j < |ms| ==> ms[j] == ms[1..][j - 1];
      if FirstText(ms) != "" {
        var j :| 0 <= j < |ms[1..]| && ms[1..][j].text == FirstText(ms) &&
          forall i :: 0 <= i < j ==> ms[1..][i].text == "";
        assert ms[j + 1].text == FirstText(ms);
      }
    }
  }

  lemma {:induction false} AttachmentsAppend(a: seq<RawMessage>, b: seq<RawMessage>)
    ensures Attachments(a + b) == Attachments(a) + Attachments(b)
  {
    if a != [] {
      assert (a + b)[1..] == a[1..] + b;
      AttachmentsAppend(a[1..], b);
    } else {
      assert a + b == b;
    }
  }

  /**
   * Member `j` contributes exactly its own attachment (one item if it is a
   * photo or document, none otherwise), after those of the members before it
   * and before those of the members after it.
   */
  lemma AttachmentsInMemberOrder(ms: seq<RawMessage>, j: int)
    requires 0 <= j < |ms|
    ensures Attachments(ms) == Attachments(ms[..j]) + AttachmentOf(ms[j]) + Attachments(ms[j + 1..])
  {
    var rest := ms[j..];
    assert ms == ms[..j] + rest;
    AttachmentsAppend(ms[..j], rest);
    assert rest[0] == ms[j] && rest[1..] == ms[j + 1..];
    assert Attachments(rest) == AttachmentOf(ms[j]) + Attachments(ms[j + 1..]);
  }

  /**
   * A record's attachments are its photo and document members, each with its
   * own id and kind: each attachment comes from such a member, and each such
   * member yields one (in member order, by AttachmentsInMemberOrder).
   */
  lemma {:induction false} AttachmentsAreRenderableMembers(ms: seq<RawMessage>)
    ensures forall a :: a in Attachments(ms) ==>
      Renderable(a.kind) && exists j :: 0 <= j < |ms| && a == MediaItem(ms[j].id, KindOf(ms[j].media))
    ensures |Attachments(ms)| == |ms| ==> forall j :: 0 <= j < |ms| ==> Renderable(KindOf(ms[j].media))
    ensures |Attachments(ms)| <= |ms|
    ensures forall j :: 0 <= j < |ms| && Renderable(KindOf(ms[j].media)) ==>
      MediaItem(ms[j].id, KindOf(ms[j].media)) in Attachments(ms)
  {
    forall j | 0 <= j < |ms| && Renderable(KindOf(ms[j].media))
      ensures MediaItem(ms[j].id, KindOf(ms[j].media)) in Attachments(ms)
    {
      AttachmentsInMemberOrder(ms, j);
    }
    if ms != [] {
      AttachmentsAreRenderableMembers(ms[1..]);
      assert forall j :: 1 <= j < |ms| ==> ms[j] == ms[1..][j - 1];
      forall a | a in Attachments(ms)
        ensures Renderable(a.kind) && exists j :: 0 <= j < |ms| && a == MediaItem(ms[j].id, KindOf(ms[j].media))
      {
        if a !in AttachmentOf(ms[0]) {
          assert a in Attachments(ms[1..]);
          var j :| 0 <= j < |ms[1..]| && a == MediaItem(ms[1..][j].id, KindOf(ms[1..][j].media));
          assert a == MediaItem(ms[j + 1].id, KindOf(ms[j + 1].media));
        }
      }
    }
  }

  // ---------------------------------------------------------------------------
  // The grouping loop

  lemma SummariesAppend(runs: seq<seq<RawMessage>>, run: seq<RawMessage>)
    requires forall k :: 0 <= k < |runs| ==> runs[k] != []
    requires run != []
    ensures Summaries(runs + [run]) == Summaries(runs) + [Summary(run)]
  {
  }

  lemma SummariesExtendLast(runs: seq<seq<RawMessage>>, m: RawMessage)
    requires forall k :: 0 <= k < |runs| ==> runs[k] != []
    requires runs != []
    ensures var n := |runs|;
      Summaries(runs[..n - 1] + [runs[n - 1] + [m]]) == Summaries(runs)[n - 1 := Summary(runs[n - 1] + [m])]
  {
  }

  lemma SummarySingle(m: RawMessage)
    ensures Summary([m]) ==
      SavedMessage(m.id, [m.id], m.date, m.text, KindOf(m.media), AttachmentOf(m), m.groupedID, PreviewOf(m.media))
  {
    assert [m][1..] == [];
    assert Ids([m]) == [m.id] + Ids([]);
    assert FirstText([m]) == m.text;
    assert Attachments([m]) == AttachmentOf(m) + Attachments([]);
  }

  /** An entry that is not a Message changes nothing. */
  lemma GroupedViewSkips(entries: seq<MessageClass>, e: MessageClass)
    requires !e.Message?
    ensures GroupedView(entries + [e]) == GroupedView(entries)
  {
    MessagesSnoc(entries, e);
    assert Messages(entries + [e]) == Messages(entries);
  }

  /** The merge step on the runs of `ms`, seen through their records. */
  lemma SummariesJoin(ms: seq<RawMessage>, m: RawMessage)
    requires JoinsLastRun(Albums(ms), m)
    ensures var g := Summaries(Albums(ms)); var last := g[|g| - 1];
      Summaries(Albums(ms + [m])) ==
        g[|g| - 1 := last.(ids := last.ids + [m.id],
                           message := if last.message == "" && m.text != "" then m.text else last.message,
                           attachments := last.attachments + AttachmentOf(m))]
  {
    var runs := Albums(ms);
    var n := |runs|;
    var run := runs[n - 1];
    AlbumsSnoc(ms, m);
    assert Albums(ms + [m]) == runs[..n - 1] + [run + [m]];
    SummariesExtendLast(runs, m);
    var g := Summaries(runs);
    assert g[n - 1] == Summary(run);
    SummarySnoc(run, m);
  }

  /** The start step on the runs of `ms`, seen through their records. */
  lemma SummariesStart(ms: seq<RawMessage>, m: RawMessage)
    requires !JoinsLastRun(Albums(ms), m)
    ensures Summaries(Albums(ms + [m])) ==
      Summaries(Albums(ms)) + [SavedMessage(m.id, [m.id], m.date, m.text, KindOf(m.media), AttachmentOf(m),
                                            m.groupedID, PreviewOf(m.media))]
  {
    AlbumsSnoc(ms, m);
    SummarySingle(m);
    SummariesAppend(Albums(ms), [m]);
  }

  /** A message carrying the last record's non-zero key is folded into that record. */
  lemma GroupedViewMerges(entries: seq<MessageClass>, m: RawMessage)
    requires var g := GroupedView(entries);
      m.groupedID != 0 && |g| > 0 && g[|g| - 1].groupedID == m.groupedID
    ensures var g := GroupedView(entries); var last := g[|g| - 1];
      GroupedView(entries + [Message(m)]) ==
        g[|g| - 1 := last.(ids := last.ids + [m.id],
                           message := if last.message == "" && m.text != "" then m.text else last.message,
                           attachments := last.attachments + AttachmentOf(m))]
  {
    MessagesSnoc(entries, Message(m));
    var ms := Messages(entries);
    var runs := Albums(ms);
    assert JoinsLastRun(runs, m) by {
      var g := GroupedView(entries);
      assert g == Summaries(runs);
      assert g[|g| - 1] == Summary(runs[|runs| - 1]);
    }
    SummariesJoin(ms, m);
    assert GroupedView(entries + [Message(m)]) == Summaries(Albums(ms + [m]));
  }

  /** Any other message starts a new record of its own at the end. */
  lemma GroupedViewStarts(entries: seq<MessageClass>, m: RawMessage)
    requires var g := GroupedView(entries);
      !(m.groupedID != 0 && |g| > 0 && g[|g| - 1].groupedID == m.groupedID)
    ensures GroupedView(entries + [Message(m)]) ==
      GroupedView(entries) + [SavedMessage(m.id, [m.id], m.date, m.text, KindOf(m.media), AttachmentOf(m),
                                           m.groupedID, PreviewOf(m.media))]
  {
    MessagesSnoc(entries, Message(m));
    var ms := Messages(entries);
    var runs := Albums(ms);
    assert !JoinsLastRun(runs, m) by {
      var g := GroupedView(entries);
      assert g == Summaries(runs);
      if |runs| > 0 {
        assert g[|g| - 1] == Summary(runs[|runs| - 1]);
      }
    }
    SummariesStart(ms, m);
    assert GroupedView(entries + [Message(m)]) == Summaries(Albums(ms + [m]));
  }

  /** The effect of one history entry on the records built so far. */
  function Step(records: seq<SavedMessage>, e: MessageClass): seq<SavedMessage> {
    if !e.Message? then records
    else
      var m := e.msg;
      if m.groupedID != 0 && |records| > 0 && records[|records| - 1].groupedID == m.groupedID then
        var last := records[|records| - 1];
        records[|records| - 1 := last.(ids := last.ids + [m.id],
                                       message := if last.message == "" && m.text != "" then m.text else last.message,
                                       attachments := last.attachments + AttachmentOf(m))]
      else
        records + [SavedMessage(m.id, [m.id], m.date, m.text, KindOf(m.media), AttachmentOf(m),
                                m.groupedID, PreviewOf(m.media))]
  }

  /** The three cases above: the records of a batch are those of all but its last entry, stepped by that entry. */
  lemma GroupedViewLast(entries: seq<MessageClass>)
    requires entries != []
    ensures GroupedView(entries) == Step(GroupedView(entries[..|entries| - 1]), entries[|entries| - 1])
  {
    var front, e := entries[..|entries| - 1], entries[|entries| - 1];
    assert entries == front + [e];
    if !e.Message? {
      GroupedViewSkips(front, e);
    } else {
      var g, m := GroupedView(front), e.msg;
      assert e == Message(m);
      if m.groupedID != 0 && |g| > 0 && g[|g| - 1].groupedID == m.groupedID {
        GroupedViewMerges(front, m);
      } else {
        GroupedViewStarts(front, m);
      }
    }
  }

  /** The records after applying `Step` to each entry of the batch in turn. */
  function Pass(entries: seq<MessageClass>): seq<SavedMessage> {
    if entries == [] then []
    else Step(Pass(entries[..|entries| - 1]), entries[|entries| - 1])
  }

  lemma PassAt(entries: seq<MessageClass>, i: int)
    requires 0 <= i < |entries|
    ensures Pass(entries[..i + 1]) == Step(Pass(entries[..i]), entries[i])
  {
    assert entries[..i + 1][..i] == entries[..i];
  }

  /** The step-by-step pass and the declarative album view agree on every batch. */
  lemma {:induction false} PassIsGroupedView(entries: seq<MessageClass>)
    ensures Pass(entries) == GroupedView(entries)
  {
    if entries != [] {
      var n := |entries|;
      PassIsGroupedView(entries[..n - 1]);
      GroupedViewLast(entries);
    }
  }

  /**
   * One forward pass over the batch: skip non-Message entries, then either fold
   * the message into the last record (same non-zero key) or append a new record.
   */
  method GroupHistory(messages: seq<MessageClass>) returns (result: seq<SavedMessage>)
    ensures result == GroupedView(messages)
  {
    result := [];
    var i := 0;
    while i < |messages|
      invariant 0 <= i <= |messages|
      invariant result == Pass(messages[..i])
    {
      ghost var before := result;
      var e := messages[i];
      if e.Message? {
        var m := e.msg;
        var mediaType := KindOf(m.media);
        var webPreview := PreviewOf(m.media);

        var merged := false;
        if m.groupedID != 0 && |result| > 0 {
          var lastIdx := |result| - 1;
          var last := result[lastIdx];
          if last.groupedID == m.groupedID {
            merged := true;
            last := last.(ids := last.ids + [m.id]);
            if last.message == "" && m.text != "" {
              last := last.(message := m.text);
            }
            if mediaType == PhotoMedia || mediaType == DocumentMedia {
              last := last.(attachments := last.attachments + [MediaItem(m.id, mediaType)]);
            }
            ghost var prior := result[lastIdx];
            assert last.attachments == prior.attachments + AttachmentOf(m);
            assert last == prior.(ids := prior.ids + [m.id],
                                 message := if prior.message == "" && m.text != "" then m.text else prior.message,
                                 attachments := prior.attachments + AttachmentOf(m));
            result := result[lastIdx := last];
          }
        }

        if !merged {
          var item := SavedMessage(m.id, [m.id], m.date, m.text, mediaType, [], m.groupedID, webPreview);
          if mediaType == PhotoMedia || mediaType == DocumentMedia {
            item := item.(attachments := item.attachments + [MediaItem(m.id, mediaType)]);
          }
          assert item.attachments == AttachmentOf(m);
          assert item == SavedMessage(m.id, [m.id], m.date, m.text, KindOf(m.media), AttachmentOf(m),
                                      m.groupedID, PreviewOf(m.media));
          assert !(m.groupedID != 0 && |result| > 0 && result[|result| - 1].groupedID == m.groupedID);
          result := result + [item];
        }
      }
      assert result == Step(before, e);
      PassAt(messages, i);
      i := i + 1;
    }
    assert messages[..i] == messages;
    PassIsGroupedView(messages);
  }

  /**
   * A worked batch: an ungrouped note, a two-part album whose caption sits on
   * its second part, and another ungrouped note give three records.
   */
  lemma AlbumExample()
    ensures
      var hi := RawMessage(105, 0, "hi", 0, None);
      var photo := RawMessage(104, 0, "", 7, Some(MessageMediaPhoto(PhotoEmpty(1))));
      var caption := RawMessage(103, 0, "caption", 7, None);
      var bye := RawMessage(102, 0, "bye", 0, None);
      var g := GroupedView([Message(hi), Message(photo), Message(caption), Message(bye)]);
      |g| == 3 &&
      g[0].id == 105 && g[0].ids == [105] &&
      g[1].id == 104 && g[1].ids == [104, 103] && g[1].message == "caption" &&
      g[1].attachments == [MediaItem(104, PhotoMedia)] &&
      g[2].id == 102 && g[2].ids == [102]
  {
    var hi := RawMessage(105, 0, "hi", 0, None);
    var photo := RawMessage(104, 0, "", 7, Some(MessageMediaPhoto(PhotoEmpty(1))));
    var caption := RawMessage(103, 0, "caption", 7, None);
    var bye := RawMessage(102, 0, "bye", 0, None);
    var batch := [Message(hi), Message(photo), Message(caption), Message(bye)];
    var note := SavedMessage(105, [105], 0, "hi", NoMedia, [], 0, None);
    var album := SavedMessage(104, [104], 0, "", PhotoMedia, [MediaItem(104, PhotoMedia)], 7, None);
    var captioned := album.(ids := [104, 103], message := "caption");
    var last := SavedMessage(102, [102], 0, "bye", NoMedia, [], 0, None);
    assert batch[..0] == [];
    PassAt(batch, 0);
    assert Pass(batch[..1]) == [note];
    PassAt(batch, 1);
    assert AttachmentOf(photo) == [MediaItem(104, PhotoMedia)];
    assert Pass(batch[..2]) == [note, album];
    PassAt(batch, 2);
    assert AttachmentOf(caption) == [];
    assert [104] + [103] == [104, 103];
    assert album.attachments + [] == album.attachments;
    assert Pass(batch[..3]) == [note, captioned];
    PassAt(batch, 3);
    assert batch[..4] == batch;
    assert Pass(batch) == [note, captioned, last];
    PassIsGroupedView(batch);
  }
}
