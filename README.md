# YouTube channel scraper — a Dafny model

The scraper resolves a channel name to a channel id. It fetches the channel's
metadata and the ids of every video in the channel's uploads playlist, then
fetches each video's details. It saves the channel row and the video rows into
two CSV datasets. Each save merges the new rows into the existing dataset and
deduplicates them by a key column: `name` for channels, `title` for videos.

This project models the scraper's own logic in scraper.py. The remote API and
the CSV files are replaced by plain values:

- `dedup.dfy` (module `Dedup`): the keyed deduplication that
  `drop_duplicates(subset=key, keep='last')` performs. A row is dropped exactly
  when a later row has the same key, and the surviving rows keep their order.
  Its central law is `KeepLastAppend`. Deduplicating `existing + new` drops the
  existing rows whose key reappears in `new`, keeps the rest in order, and puts
  the deduplicated `new` rows after them.
- `persistence.dfy` (module `Persistence`): `save_channel_data` and
  `save_video_data`. The dataset file is `Option<seq<Row>>`, where `None` means
  there is no file yet. Each save returns the rows it writes back.
- `responses.dfy` (module `Responses`): the API responses, modelled as nested
  datatypes with `Option` fields. It also holds `find_channel_id`, the channel
  and video record shaping, and the per-video fetch-and-shape step. A key that
  the source reads with `[...]` raises when it is missing. The source's
  `except` turns that raise into an absent result, and the model does the same.
- `collector.dfy` (module `Collector`): the pagination loop of `get_video_ids`
  and the skip-on-failure loop of `get_video_data`, both written as methods with
  loop invariants.

Remote calls become parameters:

- the search, channel and video endpoints are functions that return
  `Option<response>`, where `None` means a transport or API fault;
- the playlist endpoint is the finite sequence of its replies, so the k-th
  request receives `replies[k]`. A reply is a page, or `None` when the request
  raises or the response has no `items`. Nothing catches that raise
  (scraper.py:95-102, 116), so the model aborts the whole video collection
  and returns no records. A failing single video, by contrast, is skipped.

Behaviour worth knowing, which the model keeps as the code has it:

- A save into a missing file writes the new rows exactly as they are, with no
  deduplication (scraper.py:86-87, 157-158). A first save of a catalog in which
  two videos share a title therefore stores both rows
  (`FirstVideoSaveKeepsDuplicateTitles`). One row per key is therefore
  guaranteed only after a save into an existing file (`Save`,
  `SaveIdempotent`).
- A channel item that has no `contentDetails.relatedPlaylists` makes the
  source raise, so shaping yields an absent record. Only a missing `uploads`
  key inside it becomes `None` (scraper.py:61).
- Video fields have no defaults. Every missing optional field becomes `None`
  (scraper.py:126-137).
- A page token of `""` ends pagination just as an absent token does, because
  the loop tests `if not next_page_token` (scraper.py:107).

## Model

| member | source | states |
|---|---|---|
| `Dedup.KeepLast` | scraper.py:84 | the result has no two rows with the same key, has exactly the input's set of keys, and is a subsequence of the input (order kept) |
| `Dedup.KeepLastKeepsLastRows` | scraper.py:84 | every row with no later row of the same key survives `keep='last'` |
| `Dedup.KeepLastOnlyLastRows` | scraper.py:84 | every surviving row is a row with no later row of the same key |
| `Dedup.KeepLastOfUnique` | scraper.py:84 | rows whose keys are already unique are left unchanged |
| `Dedup.KeepLastIdempotent` | scraper.py:84 | deduplicating twice gives the same rows as deduplicating once |
| `Dedup.KeepLastAppend` | scraper.py:83-84 | deduplicating `existing + new` gives the existing rows whose key is absent from `new`, deduplicated and in order, followed by the deduplicated `new` rows |
| `Persistence.Save` | scraper.py:81-87 | with no file, the new rows are written unchanged; with a file, the written rows have unique keys, keep every key of both inputs, and are a subsequence of `existing + new` |
| `Persistence.SaveChannelData` | scraper.py:71-87 | into an existing file, older rows with the channel's name are removed, the other rows stay deduplicated and in order, and the new channel is the last row; with no file, the single row is written |
| `Persistence.SaveVideoData` | scraper.py:147-158 | into an existing file, older rows whose title reappears are removed, and the deduplicated catalog follows the remaining rows; with no file, the catalog is written unchanged |
| `Persistence.SaveMerge` | scraper.py:152-155 | into a file with unique keys, the result is the existing rows minus the reappearing keys, then the deduplicated new rows |
| `Persistence.SaveNewestWins` | scraper.py:83-84 | on a key conflict the newly fetched row wins: each last new row of its key is written, and each written row with a new key is such a row |
| `Persistence.SaveKeepsUnsuperseded` | scraper.py:83-84 | an existing row that is last of its key and whose key is not among the new rows is written again |
| `Persistence.SaveAppendsDisjoint` | scraper.py:83-84 | new rows with only new keys are appended after an unchanged, deduplicated file |
| `Persistence.SaveIdempotent` | scraper.py:81-87 | saving the same rows again deduplicates what was written: nothing changes after a save into an existing file, and rows collapse to one per key after a first save |
| `Persistence.SaveChannelTwice` | scraper.py:75-87 | saving one channel twice, starting with no file, leaves exactly that one row |
| `Persistence.FirstVideoSaveKeepsDuplicateTitles` | scraper.py:157-158 | a first save into a missing file keeps two videos that share a title, so the keys are not unique |
| `Responses.FindChannelId` | scraper.py:20-39 | a fault or an empty search result gives `None`; otherwise the result is the first hit's channel id |
| `Responses.ShapeChannel` | scraper.py:51-63 | a record is produced exactly when the first item has its snippet, statistics and `contentDetails.relatedPlaylists`; its name is the snippet title and its id is the item id |
| `Responses.ShapeChannelRoundTrip` | scraper.py:51-63 | every channel record is recovered from the item carrying its fields, and later items are ignored |
| `Responses.ShapeChannelDefaults` | scraper.py:52-62 | for every first item with the required structure, shaping succeeds and works field by field: a missing customUrl, description, publishedAt or country becomes `""`, and a present one is copied; a missing topicDetails or topicCategories becomes `[]`; the counters and uploads are copied, so a missing one becomes `None` |
| `Responses.GetChannelData` | scraper.py:42-68 | a fault gives `None`; otherwise the result is the shaped response, so a record exists exactly when the response has the required structure |
| `Responses.ShapeVideo` | scraper.py:125-138 | a record is produced exactly when the first item has its snippet, `thumbnails.default`, contentDetails and statistics; it keeps the title and video id |
| `Responses.ShapeVideoRoundTrip` | scraper.py:125-138 | every video record is recovered from the item carrying its fields, and later items are ignored |
| `Responses.FetchVideo` | scraper.py:119-141 | one step of the bulk loop: a fault gives `None`; otherwise the result is the shaped response, so a record exists exactly when the response has the required structure |
| `Collector.LastPage` | scraper.py:106-109 | the loop stops at the first page whose token is absent or empty; every earlier page has a token |
| `Collector.FlattenLength` | scraper.py:102-104 | the ids contain one entry per playlist item, with no deduplication |
| `Collector.FlattenAt` | scraper.py:102-104 | item `j` of page `p` sits right after the items of all earlier pages (page order, then item order) |
| `Collector.UniformPagesCount` | scraper.py:102-104 | n pages of k entries each, except a last page of L entries, flatten to (n-1)*k + L ids |
| `Collector.PaginationCount` | scraper.py:94-110 | given n delivered pages, each with a token and k entries except a last page with no token and L entries, the loop requests exactly these n pages and returns (n-1)*k + L ids |
| `Collector.GetVideoIds` | scraper.py:89-110 | requests pages until the first page without a continuation token, or until a failed request. For a last page, returns the entries of every page in order, with their count. For a failed request, returns no ids. The first request has no token, each later request carries the previous page's token, and every request asks for 50 entries of the same playlist |
| `Collector.CollectedAppend` | scraper.py:118-141 | collecting `a + b` gives the records of `a` followed by the records of `b` |
| `Collector.CollectedSkipsFailure` | scraper.py:118-141 | a failing id is skipped without affecting the others: the result equals the result with that id removed |
| `Collector.CollectedCount` | scraper.py:118-141 | the number of records plus the number of failures equals the number of ids |
| `Collector.CollectedMembers` | scraper.py:118-141 | every record comes from some id, and every id that succeeds contributes its record |
| `Collector.CollectVideos` | scraper.py:115-141 | the loop returns the successful records in input order |
| `Collector.GetVideoData` | scraper.py:113-144 | if the uploads-playlist enumeration fails, returns no records; otherwise returns the records collected from the ids it returned |

## Left out

- API client construction, the `API_KEY` environment lookup and its `ValueError` (scraper.py:9-17): configuration of a foreign library.
- The remote calls themselves: each endpoint is a parameter.
- The `part`, `id` and `maxResults` arguments of the channel and video requests: each endpoint is modelled as a function of the id alone.
- CSV reading and writing, `os.makedirs` and `os.path.exists`: the dataset is only `Option<seq<Row>>`.
- Pandas type coercion on a CSV round trip: lists stored as text, numeric parsing, NaN for absent values, and the empty-frame file that a save of zero videos into a missing file writes. Keys are `Option<string>`, and two absent keys count as equal, as pandas treats missing values in `drop_duplicates`.
- Console output (`print`, including the per-video error message) and the `input` prompt.
- `main` (scraper.py:161-173): orchestration with no logic of its own. It does not check for an absent channel id or record before using it.
- Collector.GetVideoIds: requires that the playlist endpoint eventually fails or returns a page without a continuation token. The source loop has no page cap and does not terminate against an endpoint that never does this.
- Collector.GetVideoIds: a failed page request is modelled as an absent result (`None`). In the source it is an uncaught exception that also ends `main` before `save_video_data`, and `main` is not part of this model.
- Collector.GetVideoIds: the pages hold already-extracted video ids. A playlist entry missing `snippet.resourceId.videoId` raises an uncaught error in the source, and this is not modelled.
- Persistence.Save: rows whose columns differ from the file's are not modelled. Rows are typed records, so every row has every column.
- Two channels that share a display name, or two videos that share a title, are merged. This is the source's literal choice of key, and the model keeps it.
