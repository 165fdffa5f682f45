/** The two collection loops of scraper.py: `get_video_ids`, which walks the
    uploads playlist page by page, and `get_video_data`, which fetches every
    video and skips the ones that fail.

    The playlist endpoint is modelled as the finite sequence of its replies,
    the k-th call receiving `replies[k]`: a page, or `None` when the request
    raises or its response has no `items`.  Neither `get_video_ids` nor
    `get_video_data` catches that raise, so it aborts the whole collection.
    The video endpoint is a function from video id to response, `None`
    standing for a fault, which the per-video `try` catches. */
module Collector {
  import opened Wrappers
  import opened Responses

  /** Page size the scraper asks the playlist endpoint for. */
  const PageSize: nat := 50

  /** The arguments of one `playlistItems().list(...)` call. */
  datatype PlaylistItemsRequest = PlaylistItemsRequest(
    playlistId: Option<string>,
    maxResults: nat,
    pageToken: Option<string>)

  /** One page of the playlist: the video id of each entry, in playlist
      order, and the continuation token. */
  datatype Page = Page(items: seq<string>, nextPageToken: Option<string>)

  /** A page is followed by another when its token is present and not empty
      (the loop exits on a falsy token). */
  predicate HasNextPage(p: Page) {
    p.nextPageToken.Some? && p.nextPageToken.value != ""
  }

  /** A reply after which the loop requests no further page: a failed
      request, or a page without a continuation token. */
  predicate EndsLoop(reply: Option<Page>) {
    reply.None? || !HasNextPage(reply.value)
  }

  /** The playlist endpoint eventually fails or answers with a last page. */
  predicate ReachesLastPage(replies: seq<Option<Page>>) {
    exists i :: 0 <= i < |replies| && EndsLoop(replies[i])
  }

  /** Index of the last reply the loop requests: every earlier reply is a
      page with a continuation token. */
  function LastPage(replies: seq<Option<Page>>): (n: nat)
    requires ReachesLastPage(replies)
    ensures n < |replies| && EndsLoop(replies[n])
    ensures forall i :: 0 <= i < n ==> replies[i].Some? && HasNextPage(replies[i].value)
  {
    if EndsLoop(replies[0]) then 0
    else
      assert ReachesLastPage(replies[1..]) by {
        var i :| 0 <= i < |replies| && EndsLoop(replies[i]);
        assert replies[1..][i - 1] == replies[i];
      }
      var n := LastPage(replies[1..]);
      assert forall i :: 1 <= i <= n ==> replies[i] == replies[1..][i - 1];
      1 + n
  }

  /** The pages of replies that are all delivered. */
  function Unwrap(replies: seq<Option<Page>>): (pages: seq<Page>)
    requires forall i :: 0 <= i < |replies| ==> replies[i].Some?
    ensures |pages| == |replies|
    ensures forall i :: 0 <= i < |replies| ==> replies[i] == Some(pages[i])
  {
    seq(|replies|, i requires 0 <= i < |replies| => replies[i].value)
  }

  /** The entries of `pages`, page after page. */
  function Flatten(pages: seq<Page>): seq<string> {
    if pages == [] then [] else pages[0].items + Flatten(pages[1..])
  }

  /** Number of entries over all of `pages`. */
  function ItemCount(pages: seq<Page>): nat {
    if pages == [] then 0 else |pages[0].items| + ItemCount(pages[1..])
  }

  lemma {:induction false} FlattenAppend(a: seq<Page>, b: seq<Page>)
    ensures Flatten(a + b) == Flatten(a) + Flatten(b)
    ensures ItemCount(a + b) == ItemCount(a) + ItemCount(b)
  {
    if a == [] {
      assert a + b == b;
    } else {
      assert (a + b)[1..] == a[1..] + b;
      FlattenAppend(a[1..], b);
    }
  }

  /** Nothing is dropped or merged: there is one id per entry. */
  lemma {:induction false} FlattenLength(pages: seq<Page>)
    ensures |Flatten(pages)| == ItemCount(pages)
  {
    if pages != [] {
      FlattenLength(pages[1..]);
    }
  }

  /** Entry `j` of page `p` sits right after the entries of the pages before
      `p`: ids come page by page, each page in its own order. */
  lemma FlattenAt(pages: seq<Page>, p: nat, j: nat)
    requires p < |pages| && j < |pages[p].items|
    ensures ItemCount(pages[..p]) + j < |Flatten(pages)|
    ensures Flatten(pages)[ItemCount(pages[..p]) + j] == pages[p].items[j]
  {
    assert pages == pages[..p] + ([pages[p]] + pages[p + 1..]);
    FlattenAppend(pages[..p], [pages[p]] + pages[p + 1..]);
    FlattenLength(pages[..p]);
    assert Flatten([pages[p]] + pages[p + 1..]) == pages[p].items + Flatten(pages[p + 1..]);
  }

  /** `n` pages where every page but the last holds `k` entries and the last
      holds `last` flatten to `(n - 1) * k + last` entries. */
  lemma {:induction false} UniformPagesCount(pages: seq<Page>, k: nat, last: nat)
    requires |pages| > 0
    requires forall i :: 0 <= i < |pages| - 1 ==> |pages[i].items| == k
    requires |pages[|pages| - 1].items| == last
    ensures |Flatten(pages)| == (|pages| - 1) * k + last
  {
    FlattenLength(pages);
    if |pages| > 1 {
      UniformPagesCount(pages[1..], k, last);
      FlattenLength(pages[1..]);
    }
  }

  /** The pagination scenario: `n` delivered pages, each but the last with a
      continuation token and `k` entries, the last without a token and with
      `last` entries.  The loop requests exactly these `n` pages, and the ids
      it returns number `(n - 1) * k + last`. */
  lemma PaginationCount(replies: seq<Option<Page>>, k: nat, last: nat)
    requires |replies| > 0
    requires forall i :: 0 <= i < |replies| ==> replies[i].Some?
    requires forall i :: 0 <= i < |replies| - 1 ==>
               HasNextPage(replies[i].value) && |replies[i].value.items| == k
    requires !HasNextPage(replies[|replies| - 1].value)
    requires |replies[|replies| - 1].value.items| == last
    ensures ReachesLastPage(replies) && LastPage(replies) == |replies| - 1
    ensures |Flatten(Unwrap(replies[..LastPage(replies) + 1]))| == (|replies| - 1) * k + last
  {
    assert EndsLoop(replies[|replies| - 1]);
    var n := LastPage(replies);
    assert forall i :: 0 <= i < |replies| - 1 ==> !EndsLoop(replies[i]);
    assert n == |replies| - 1;
    assert replies[..n + 1] == replies;
    UniformPagesCount(Unwrap(replies), k, last);
  }

  /** `get_video_ids`: request page after page, first without a token, then
      with the token the previous page returned, appending every entry's id,
      until a page arrives without a continuation token.  A failed request
      aborts the enumeration with no ids.  Returns the ids and the requests
      sent. */
  method GetVideoIds(playlistId: Option<string>, replies: seq<Option<Page>>)
      returns (videoIds: Option<seq<string>>, requests: seq<PlaylistItemsRequest>)
    requires ReachesLastPage(replies)
    ensures |requests| == LastPage(replies) + 1
    ensures videoIds.None? <==> replies[|requests| - 1].None?
    ensures videoIds.Some? ==> videoIds.value == Flatten(Unwrap(replies[..|requests|]))
    ensures videoIds.Some? ==> |videoIds.value| == ItemCount(Unwrap(replies[..|requests|]))
    ensures forall k :: 0 <= k < |requests| ==>
              requests[k].playlistId == playlistId && requests[k].maxResults == PageSize
    ensures requests[0].pageToken == None
    ensures forall k :: 0 < k < |requests| ==>
              replies[k - 1].Some? && requests[k].pageToken == replies[k - 1].value.nextPageToken
  {
    var ids: seq<string> := [];
    requests := [];
    var nextPageToken: Option<string> := None;
    var i := 0;
    while true
      invariant 0 <= i <= LastPage(replies)
      invariant |requests| == i
      invariant ids == Flatten(Unwrap(replies[..i]))
      invariant forall k :: 0 <= k < i ==>
                  requests[k].playlistId == playlistId && requests[k].maxResults == PageSize
      invariant i == 0 ==> nextPageToken == None
      invariant i > 0 ==> requests[0].pageToken == None && nextPageToken == replies[i - 1].value.nextPageToken
      invariant forall k :: 0 < k < i ==> requests[k].pageToken == replies[k - 1].value.nextPageToken
      decreases LastPage(replies) - i
    {
      requests := requests + [PlaylistItemsRequest(playlistId, PageSize, nextPageToken)];
      var reply := replies[i];
      if reply.None? {
        videoIds := None;
        break;
      }
      var uploads := reply.value;
      for k := 0 to |uploads.items|
        invariant ids == Flatten(Unwrap(replies[..i])) + uploads.items[..k]
      {
        ids := ids + [uploads.items[k]];
      }
      assert uploads.items[..|uploads.items|] == uploads.items;
      assert Unwrap(replies[..i + 1]) == Unwrap(replies[..i]) + [uploads];
      FlattenAppend(Unwrap(replies[..i]), [uploads]);
      assert Flatten([uploads]) == uploads.items + Flatten([]);
      nextPageToken := uploads.nextPageToken;
      if !HasNextPage(uploads) {
        FlattenLength(Unwrap(replies[..i + 1]));
        videoIds := Some(ids);
        break;
      }
      i := i + 1;
    }
  }

  /** The records collected from `ids`, in order, skipping every id whose
      fetch or shaping fails. */
  function Collected(ids: seq<string>, videos: string -> Option<VideoListResponse>): seq<VideoRecord> {
    if ids == [] then []
    else
      var before := Collected(ids[..|ids| - 1], videos);
      match FetchVideo(ids[|ids| - 1], videos)
      case None => before
      case Some(v) => before + [v]
  }

  /** Number of ids whose fetch or shaping fails. */
  function FailureCount(ids: seq<string>, videos: string -> Option<VideoListResponse>): nat {
    if ids == [] then 0
    else FailureCount(ids[..|ids| - 1], videos) + (if FetchVideo(ids[|ids| - 1], videos).None? then 1 else 0)
  }

  /** Collection works id by id: the records of `a + b` are those of `a`
      followed by those of `b`. */
  lemma {:induction false} CollectedAppend(a: seq<string>, b: seq<string>, videos: string -> Option<VideoListResponse>)
    ensures Collected(a + b, videos) == Collected(a, videos) + Collected(b, videos)
    ensures FailureCount(a + b, videos) == FailureCount(a, videos) + FailureCount(b, videos)
  {
    if b == [] {
      assert a + b == a;
    } else {
      var b' := b[..|b| - 1];
      assert (a + b)[..|a + b| - 1] == a + b';
      assert (a + b)[|a + b| - 1] == b[|b| - 1];
      CollectedAppend(a, b', videos);
    }
  }

  /** A failing id is skipped and does not disturb the others: the result is
      the one the ids without it give. */
  lemma {:induction false} CollectedSkipsFailure(ids: seq<string>, i: nat, videos: string -> Option<VideoListResponse>)
    requires i < |ids| && FetchVideo(ids[i], videos).None?
    ensures Collected(ids, videos) == Collected(ids[..i] + ids[i + 1..], videos)
  {
    var a, x, c := ids[..i], ids[i], ids[i + 1..];
    assert ids == a + ([x] + c);
    CollectedAppend(a, [x] + c, videos);
    CollectedAppend([x], c, videos);
    assert Collected([x], videos) == [] by {
      assert [x][..0] == [];
    }
    assert Collected([x] + c, videos) == Collected(c, videos);
    CollectedAppend(a, c, videos);
  }

  /** Every id yields exactly one record or one failure. */
  lemma {:induction false} CollectedCount(ids: seq<string>, videos: string -> Option<VideoListResponse>)
    ensures |Collected(ids, videos)| + FailureCount(ids, videos) == |ids|
  {
    if ids != [] {
      CollectedCount(ids[..|ids| - 1], videos);
    }
  }

  /** Every collected record is the shaped response of some id, and every
      id that fetches and shapes contributes its record. */
  lemma {:induction false} CollectedMembers(ids: seq<string>, videos: string -> Option<VideoListResponse>)
    ensures forall v :: v in Collected(ids, videos) ==>
              exists i :: 0 <= i < |ids| && FetchVideo(ids[i], videos) == Some(v)
    ensures forall i :: 0 <= i < |ids| && FetchVideo(ids[i], videos).Some? ==>
              FetchVideo(ids[i], videos).value in Collected(ids, videos)
  {
    if ids != [] {
      var init := ids[..|ids| - 1];
      CollectedMembers(init, videos);
      forall v | v in Collected(ids, videos)
        ensures exists i :: 0 <= i < |ids| && FetchVideo(ids[i], videos) == Some(v)
      {
        if v in Collected(init, videos) {
          var i :| 0 <= i < |init| && FetchVideo(init[i], videos) == Some(v);
          assert ids[i] == init[i];
        }
      }
      forall i | 0 <= i < |ids| && FetchVideo(ids[i], videos).Some?
        ensures FetchVideo(ids[i], videos).value in Collected(ids, videos)
      {
        if i < |ids| - 1 {
          assert ids[i] == init[i];
        }
      }
    }
  }

  /** The `for` loop of `get_video_data`: fetch and shape each id in turn,
      append the successes, skip the failures. */
  method CollectVideos(ids: seq<string>, videos: string -> Option<VideoListResponse>)
      returns (records: seq<VideoRecord>)
    ensures records == Collected(ids, videos)
  {
    records := [];
    for i := 0 to |ids|
      invariant records == Collected(ids[..i], videos)
    {
      assert ids[..i + 1][..i] == ids[..i];
      var videoData := FetchVideo(ids[i], videos);
      if videoData.Some? {
        records := records + [videoData.value];
      }
    }
    assert ids[..|ids|] == ids;
  }

  /** `get_video_data`: enumerate the channel's uploads playlist, then
      collect every video.  `playlist` gives the replies the playlist endpoint
      answers with for a playlist id.  A failed page request is not caught:
      it aborts the collection and no records are returned. */
  method GetVideoData(channel: ChannelRecord, playlist: Option<string> -> seq<Option<Page>>,
                      videos: string -> Option<VideoListResponse>)
      returns (records: Option<seq<VideoRecord>>)
    requires ReachesLastPage(playlist(channel.uploadsPlaylistId))
    ensures var replies := playlist(channel.uploadsPlaylistId);
            var n := LastPage(replies);
            (records.None? <==> replies[n].None?) &&
            (records.Some? ==> records.value == Collected(Flatten(Unwrap(replies[..n + 1])), videos))
  {
    var videoIds, _ := GetVideoIds(channel.uploadsPlaylistId, playlist(channel.uploadsPlaylistId));
    if videoIds.None? {
      records := None;
    } else {
      var collected := CollectVideos(videoIds.value, videos);
      records := Some(collected);
    }
  }
}
