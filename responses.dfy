/** The YouTube Data API responses the scraper reads, and the flat records it
    shapes from them (`find_channel_id`, `get_channel_data` and the body of the
    per-video `try` block of `get_video_data` in scraper.py).

    A response is a nested JSON object; every key the scraper reads with
    `.get(...)` is an `Option` field here, and so is every key it reads with
    `[...]`, because a missing key there raises and the scraper's `except`
    turns the raise into an absent result.  A response without `items` is
    treated like one whose `items` list is empty: both end in the same absent
    result. */
module Responses {
  import opened Wrappers

  // ---------------------------------------------------------------------------
  // search().list — resolving a free-text name to a channel id
  // ---------------------------------------------------------------------------

  /** The arguments of one `search().list(...)` call. */
  datatype SearchRequest = SearchRequest(part: string, q: string, kind: string, maxResults: nat)

  datatype SearchResultId = SearchResultId(channelId: Option<string>)
  datatype SearchResult = SearchResult(id: Option<SearchResultId>)
  datatype SearchResponse = SearchResponse(items: seq<SearchResult>)

  /** The single search the resolver issues: channels only, at most one hit. */
  function ChannelSearch(username: string): SearchRequest {
    SearchRequest("snippet", username, "channel", 1)
  }

  /** The channel id carried by a search hit, if it carries one. */
  function HitChannelId(hit: SearchResult): Option<string> {
    if hit.id.Some? then hit.id.value.channelId else None
  }

  /** `find_channel_id`: `search` is the remote endpoint, `None` standing for
      a transport or API fault.  A fault and an empty result list both give
      `None`; otherwise the first hit's channel id is the answer, whatever
      the other hits hold. */
  function FindChannelId(username: string, search: SearchRequest -> Option<SearchResponse>): (r: Option<string>)
    ensures r.Some? <==>
              search(ChannelSearch(username)).Some? &&
              |search(ChannelSearch(username)).value.items| > 0 &&
              HitChannelId(search(ChannelSearch(username)).value.items[0]).Some?
    ensures r.Some? ==> r == HitChannelId(search(ChannelSearch(username)).value.items[0])
  {
    match search(ChannelSearch(username))
    case None => None
    case Some(found) =>
      if |found.items| == 0 then None
      else HitChannelId(found.items[0])
  }

  // ---------------------------------------------------------------------------
  // channels().list — shaping a channel record
  // ---------------------------------------------------------------------------

  datatype ChannelSnippet = ChannelSnippet(
    title: Option<string>,
    customUrl: Option<string>,
    description: Option<string>,
    publishedAt: Option<string>,
    country: Option<string>)

  datatype ChannelStatistics = ChannelStatistics(
    subscriberCount: Option<string>,
    viewCount: Option<string>,
    videoCount: Option<string>)

  datatype TopicDetails = TopicDetails(topicCategories: Option<seq<string>>)
  datatype RelatedPlaylists = RelatedPlaylists(uploads: Option<string>)
  datatype ChannelContentDetails = ChannelContentDetails(relatedPlaylists: Option<RelatedPlaylists>)

  datatype ChannelItem = ChannelItem(
    id: Option<string>,
    snippet: Option<ChannelSnippet>,
    statistics: Option<ChannelStatistics>,
    topicDetails: Option<TopicDetails>,
    contentDetails: Option<ChannelContentDetails>)

  datatype ChannelListResponse = ChannelListResponse(items: seq<ChannelItem>)

  /** One row of the channel dataset.  Columns, in order: url, name,
      description, creation_date, country, subscribers, total_views,
      total_videos, topic_category, uploads_playlist_id, channel_id. */
  datatype ChannelRecord = ChannelRecord(
    url: string,
    name: Option<string>,
    description: string,
    creationDate: string,
    country: string,
    subscribers: Option<string>,
    totalViews: Option<string>,
    totalVideos: Option<string>,
    topicCategory: seq<string>,
    uploadsPlaylistId: Option<string>,
    channelId: Option<string>)

  /** The parts of a channel item that are read with `[...]` and so must be
      present for shaping not to raise. */
  predicate HasChannelStructure(item: ChannelItem) {
    item.snippet.Some? && item.statistics.Some? &&
    item.contentDetails.Some? && item.contentDetails.value.relatedPlaylists.Some?
  }

  /** `topicDetails.topicCategories`, an empty list when either level is absent. */
  function TopicCategories(item: ChannelItem): seq<string> {
    if item.topicDetails.Some? then item.topicDetails.value.topicCategories.GetOr([]) else []
  }

  /** The dictionary built in `get_channel_data` from the first item. */
  function ShapeChannel(response: ChannelListResponse): (r: Option<ChannelRecord>)
    ensures r.Some? <==> |response.items| > 0 && HasChannelStructure(response.items[0])
    ensures r.Some? ==> r.value.name == response.items[0].snippet.value.title
    ensures r.Some? ==> r.value.channelId == response.items[0].id
  {
    if |response.items| == 0 then None
    else
      var item := response.items[0];
      if !HasChannelStructure(item) then None
      else
        var snippet, stats := item.snippet.value, item.statistics.value;
        Some(ChannelRecord(
          snippet.customUrl.GetOr(""),
          snippet.title,
          snippet.description.GetOr(""),
          snippet.publishedAt.GetOr(""),
          snippet.country.GetOr(""),
          stats.subscriberCount,
          stats.viewCount,
          stats.videoCount,
          TopicCategories(item),
          item.contentDetails.value.relatedPlaylists.value.uploads,
          item.id))
  }

  /** The item the API would send for a channel with exactly the fields of `c`. */
  function ChannelItemOf(c: ChannelRecord): ChannelItem {
    ChannelItem(
      c.channelId,
      Some(ChannelSnippet(c.name, Some(c.url), Some(c.description), Some(c.creationDate), Some(c.country))),
      Some(ChannelStatistics(c.subscribers, c.totalViews, c.totalVideos)),
      Some(TopicDetails(Some(c.topicCategory))),
      Some(ChannelContentDetails(Some(RelatedPlaylists(c.uploadsPlaylistId)))))
  }

  /** Shaping loses nothing: every channel record is recovered from the item
      that carries its fields, and the items after the first are ignored. */
  lemma ShapeChannelRoundTrip(c: ChannelRecord, later: seq<ChannelItem>)
    ensures ShapeChannel(ChannelListResponse([ChannelItemOf(c)] + later)) == Some(c)
  {
  }

  /** Field by field, for every first item that carries the required
      structure: a missing optional text field becomes `""`, a missing
      `topicDetails` or `topicCategories` becomes `[]`, a missing counter or
      uploads playlist becomes `None`, and a present field is copied. */
  lemma ShapeChannelDefaults(response: ChannelListResponse)
    requires |response.items| > 0 && HasChannelStructure(response.items[0])
    ensures var item := response.items[0];
            var snippet, stats := item.snippet.value, item.statistics.value;
            var r := ShapeChannel(response);
            r.Some? &&
            (snippet.customUrl.None? ==> r.value.url == "") &&
            (snippet.customUrl.Some? ==> r.value.url == snippet.customUrl.value) &&
            (snippet.description.None? ==> r.value.description == "") &&
            (snippet.description.Some? ==> r.value.description == snippet.description.value) &&
            (snippet.publishedAt.None? ==> r.value.creationDate == "") &&
            (snippet.publishedAt.Some? ==> r.value.creationDate == snippet.publishedAt.value) &&
            (snippet.country.None? ==> r.value.country == "") &&
            (snippet.country.Some? ==> r.value.country == snippet.country.value) &&
            ((item.topicDetails.None? || item.topicDetails.value.topicCategories.None?) ==>
               r.value.topicCategory == []) &&
            (item.topicDetails.Some? && item.topicDetails.value.topicCategories.Some? ==>
               r.value.topicCategory == item.topicDetails.value.topicCategories.value) &&
            r.value.subscribers == stats.subscriberCount &&
            r.value.totalViews == stats.viewCount &&
            r.value.totalVideos == stats.videoCount &&
            r.value.uploadsPlaylistId == item.contentDetails.value.relatedPlaylists.value.uploads
  {
  }

  /** `get_channel_data`: `channels` is the remote endpoint keyed by channel
      id, `None` standing for a fault.  A fault and a response that does not
      shape both give `None`. */
  function GetChannelData(channelId: string, channels: string -> Option<ChannelListResponse>): (r: Option<ChannelRecord>)
    ensures channels(channelId).None? ==> r.None?
    ensures channels(channelId).Some? ==> r == ShapeChannel(channels(channelId).value)
    ensures r.Some? <==>
              channels(channelId).Some? &&
              |channels(channelId).value.items| > 0 &&
              HasChannelStructure(channels(channelId).value.items[0])
  {
    match channels(channelId)
    case None => None
    case Some(response) => ShapeChannel(response)
  }

  // ---------------------------------------------------------------------------
  // videos().list — shaping a video record
  // ---------------------------------------------------------------------------

  datatype Thumbnail = Thumbnail(url: Option<string>)
  datatype Thumbnails = Thumbnails(defaultSize: Option<Thumbnail>)

  datatype VideoSnippet = VideoSnippet(
    title: Option<string>,
    description: Option<string>,
    channelTitle: Option<string>,
    thumbnails: Option<Thumbnails>,
    tags: Option<seq<string>>,
    categoryId: Option<string>,
    publishedAt: Option<string>)

  datatype VideoContentDetails = VideoContentDetails(duration: Option<string>)

  datatype VideoStatistics = VideoStatistics(
    viewCount: Option<string>,
    likeCount: Option<string>,
    commentCount: Option<string>)

  datatype VideoItem = VideoItem(
    id: Option<string>,
    snippet: Option<VideoSnippet>,
    contentDetails: Option<VideoContentDetails>,
    statistics: Option<VideoStatistics>)

  datatype VideoListResponse = VideoListResponse(items: seq<VideoItem>)

  /** One row of the video dataset.  Columns, in order: title, description,
      channel_name, thumbnail, tags, category, duration, views, likes,
      comments, upload_date, video_id.  No column has a default. */
  datatype VideoRecord = VideoRecord(
    title: Option<string>,
    description: Option<string>,
    channelName: Option<string>,
    thumbnail: Option<string>,
    tags: Option<seq<string>>,
    category: Option<string>,
    duration: Option<string>,
    views: Option<string>,
    likes: Option<string>,
    comments: Option<string>,
    uploadDate: Option<string>,
    videoId: Option<string>)

  /** The parts of a video item read with `[...]`: the snippet, its
      `thumbnails.default`, the content details and the statistics. */
  predicate HasVideoStructure(item: VideoItem) {
    item.snippet.Some? && item.snippet.value.thumbnails.Some? &&
    item.snippet.value.thumbnails.value.defaultSize.Some? &&
    item.contentDetails.Some? && item.statistics.Some?
  }

  /** The dictionary built for one video inside `get_video_data`'s `try`. */
  function ShapeVideo(response: VideoListResponse): (r: Option<VideoRecord>)
    ensures r.Some? <==> |response.items| > 0 && HasVideoStructure(response.items[0])
    ensures r.Some? ==> r.value.title == response.items[0].snippet.value.title
    ensures r.Some? ==> r.value.videoId == response.items[0].id
  {
    if |response.items| == 0 then None
    else
      var item := response.items[0];
      if !HasVideoStructure(item) then None
      else
        var snippet, stats := item.snippet.value, item.statistics.value;
        Some(VideoRecord(
          snippet.title,
          snippet.description,
          snippet.channelTitle,
          snippet.thumbnails.value.defaultSize.value.url,
          snippet.tags,
          snippet.categoryId,
          item.contentDetails.value.duration,
          stats.viewCount,
          stats.likeCount,
          stats.commentCount,
          snippet.publishedAt,
          item.id))
  }

  /** The item the API would send for a video with exactly the fields of `v`. */
  function VideoItemOf(v: VideoRecord): VideoItem {
    VideoItem(
      v.videoId,
      Some(VideoSnippet(v.title, v.description, v.channelName,
                        Some(Thumbnails(Some(Thumbnail(v.thumbnail)))),
                        v.tags, v.category, v.uploadDate)),
      Some(VideoContentDetails(v.duration)),
      Some(VideoStatistics(v.views, v.likes, v.comments)))
  }

  /** Shaping loses nothing: every video record is recovered from the item
      that carries its fields, and the items after the first are ignored. */
  lemma ShapeVideoRoundTrip(v: VideoRecord, later: seq<VideoItem>)
    ensures ShapeVideo(VideoListResponse([VideoItemOf(v)] + later)) == Some(v)
  {
  }

  /** One step of the bulk collection: fetch a video by id (`videos` is the
      remote endpoint, `None` standing for a fault) and shape it.  A fault
      and a response that does not shape are both a skipped video. */
  function FetchVideo(videoId: string, videos: string -> Option<VideoListResponse>): (r: Option<VideoRecord>)
    ensures videos(videoId).None? ==> r.None?
    ensures videos(videoId).Some? ==> r == ShapeVideo(videos(videoId).value)
    ensures r.Some? <==>
              videos(videoId).Some? &&
              |videos(videoId).value.items| > 0 &&
              HasVideoStructure(videos(videoId).value.items[0])
  {
    match videos(videoId)
    case None => None
    case Some(response) => ShapeVideo(response)
  }
}
