/** The merge-and-deduplicate persistence of `save_channel_data` and
    `save_video_data`.  The dataset file is `Option<seq<Row>>`: `None` when
    no file exists yet, otherwise its rows in file order.  Each save returns
    the rows it writes back. */
module Persistence {
  import opened Wrappers
  import opened Dedup
  import opened Responses

  /** The de-duplication column of the channel dataset: `name`. */
  function ChannelKey(c: ChannelRecord): Option<string> {
    c.name
  }

  /** The de-duplication column of the video dataset: `title`. */
  function VideoKey(v: VideoRecord): Option<string> {
    v.title
  }

  /** The shared save: with no file the new rows are written as they are;
      with a file, the new rows are appended after the existing ones and only
      the last row of every key is kept. */
  function Save<T(==), K(==)>(file: Option<seq<T>>, rows: seq<T>, key: T -> K): (written: seq<T>)
    ensures file.None? ==> written == rows
    ensures file.Some? ==> UniqueKeys(written, key)
    ensures file.Some? ==> KeysOf(written, key) == KeysOf(file.value, key) + KeysOf(rows, key)
    ensures file.Some? ==> Subsequence(written, file.value + rows)
  {
    match file
    case None => rows
    case Some(existing) =>
      KeysOfAppend(existing, rows, key);
      KeepLast(existing + rows, key)
  }

  /** `save_channel_data`: one channel record is saved.  Into an existing
      file, every older row of the same name is dropped, the other rows stay
      de-duplicated and in order, and the new record is the last row. */
  function SaveChannelData(file: Option<seq<ChannelRecord>>, channel: ChannelRecord): (written: seq<ChannelRecord>)
    ensures file.None? ==> written == [channel]
    ensures file.Some? ==>
              written == KeepLast(Without(file.value, {channel.name}, ChannelKey), ChannelKey) + [channel]
  {
    var written := Save(file, [channel], ChannelKey);
    if file.Some? then
      KeepLastAppend(file.value, [channel], ChannelKey);
      assert KeysOf([channel], ChannelKey) == {channel.name} by {
        assert ChannelKey([channel][0]) == channel.name;
      }
      assert KeepLast([channel], ChannelKey) == [channel];
      written
    else
      written
  }

  /** `save_video_data`: a catalog of video records is saved.  Into an
      existing file, every older row whose title reappears in the catalog is
      dropped, the other rows stay de-duplicated and in order, and the
      de-duplicated catalog follows them. */
  function SaveVideoData(file: Option<seq<VideoRecord>>, videos: seq<VideoRecord>): (written: seq<VideoRecord>)
    ensures file.None? ==> written == videos
    ensures file.Some? ==>
              written == KeepLast(Without(file.value, KeysOf(videos, VideoKey), VideoKey), VideoKey)
                         + KeepLast(videos, VideoKey)
  {
    var written := Save(file, videos, VideoKey);
    if file.Some? then
      KeepLastAppend(file.value, videos, VideoKey);
      written
    else
      written
  }

  /** Saving into an existing file whose keys are already unique (every file
      a save into an existing file writes): the old rows whose key reappears
      among the new rows are removed, all other old rows stay as they were,
      and the de-duplicated new rows follow. */
  lemma {:induction false} SaveMerge<T, K>(existing: seq<T>, rows: seq<T>, key: T -> K)
    requires UniqueKeys(existing, key)
    ensures Save(Some(existing), rows, key) ==
            Without(existing, KeysOf(rows, key), key) + KeepLast(rows, key)
  {
    KeepLastAppend(existing, rows, key);
    var w := Without(existing, KeysOf(rows, key), key);
    assert UniqueKeys(w, key) by {
      WithoutKeepsUnique(existing, KeysOf(rows, key), key);
    }
    KeepLastOfUnique(w, key);
  }

  /** The newly fetched rows win: into an existing file, every new row that
      is the last of its key among the new rows is written, and every written
      row whose key occurs among the new rows is such a row. */
  lemma SaveNewestWins<T, K>(existing: seq<T>, rows: seq<T>, key: T -> K)
    ensures forall i :: IsLastOfKey(rows, key, i) ==> rows[i] in Save(Some(existing), rows, key)
    ensures forall j :: 0 <= j < |Save(Some(existing), rows, key)| &&
                        key(Save(Some(existing), rows, key)[j]) in KeysOf(rows, key) ==>
              exists i :: IsLastOfKey(rows, key, i) && rows[i] == Save(Some(existing), rows, key)[j]
  {
    var written := Save(Some(existing), rows, key);
    var kr := KeysOf(rows, key);
    var old' := KeepLast(Without(existing, kr, key), key);
    var new' := KeepLast(rows, key);
    KeepLastAppend(existing, rows, key);
    assert written == old' + new';
    KeepLastKeepsLastRows(rows, key);
    KeepLastOnlyLastRows(rows, key);
    forall j | 0 <= j < |written| && key(written[j]) in kr
      ensures exists i :: IsLastOfKey(rows, key, i) && rows[i] == written[j]
    {
      assert written[j] == new'[j - |old'|];
    }
  }

  /** No stored row is lost unless a later row supersedes it: an existing row
      that is the last of its key in the file, and whose key the new rows do
      not carry, is written again. */
  lemma SaveKeepsUnsuperseded<T, K>(existing: seq<T>, rows: seq<T>, key: T -> K)
    ensures forall i :: IsLastOfKey(existing, key, i) && key(existing[i]) !in KeysOf(rows, key) ==>
              existing[i] in Save(Some(existing), rows, key)
  {
    var all := existing + rows;
    KeepLastKeepsLastRows(all, key);
    forall i | IsLastOfKey(existing, key, i) && key(existing[i]) !in KeysOf(rows, key)
      ensures existing[i] in Save(Some(existing), rows, key)
    {
      forall j | i < j < |all| ensures key(all[j]) != key(all[i]) {
        if j >= |existing| {
          assert all[j] == rows[j - |existing|];
          assert key(rows[j - |existing|]) in KeysOf(rows, key);
        }
      }
      assert IsLastOfKey(all, key, i);
    }
  }

  /** Saving rows whose keys are all new into a de-duplicated file appends
      them, untouched rows keeping their order. */
  lemma SaveAppendsDisjoint<T, K>(existing: seq<T>, rows: seq<T>, key: T -> K)
    requires UniqueKeys(existing, key) && UniqueKeys(rows, key)
    requires KeysOf(existing, key) !! KeysOf(rows, key)
    ensures Save(Some(existing), rows, key) == existing + rows
  {
    SaveMerge(existing, rows, key);
    WithoutDisjoint(existing, KeysOf(rows, key), key);
    KeepLastOfUnique(rows, key);
  }

  /** Re-saving the same rows: the second save de-duplicates what the first
      wrote, so into an existing file it changes nothing, and after a first
      save into a missing file it collapses the rows to one per key. */
  lemma SaveIdempotent<T, K>(file: Option<seq<T>>, rows: seq<T>, key: T -> K)
    ensures Save(Some(Save(file, rows, key)), rows, key) == KeepLast(Save(file, rows, key), key)
    ensures file.Some? ==> Save(Some(Save(file, rows, key)), rows, key) == Save(file, rows, key)
    ensures file.None? ==> Save(Some(Save(file, rows, key)), rows, key) == KeepLast(rows, key)
  {
    var kr := KeysOf(rows, key);
    var w := Save(file, rows, key);
    KeepLastAppend(w, rows, key);
    match file
    case None =>
      WithoutAll(rows, kr, key);
      assert KeepLast([], key) == [];
      assert [] + KeepLast(rows, key) == KeepLast(rows, key);
    case Some(existing) =>
      var ow := KeepLast(Without(existing, kr, key), key);
      var nw := KeepLast(rows, key);
      KeepLastAppend(existing, rows, key);
      assert w == ow + nw;
      WithoutAppend(ow, nw, kr, key);
      WithoutDisjoint(ow, kr, key);
      WithoutAll(nw, kr, key);
      assert Without(w, kr, key) == ow;
      KeepLastIdempotent(Without(existing, kr, key), key);
      KeepLastOfUnique(w, key);
  }

  /** Saving one channel twice into a missing file leaves one row. */
  lemma SaveChannelTwice(channel: ChannelRecord)
    ensures SaveChannelData(Some(SaveChannelData(None, channel)), channel) == [channel]
  {
    SaveIdempotent(None, [channel], ChannelKey);
    KeepLastOfUnique([channel], ChannelKey);
  }

  /** The first save into a missing file applies no de-duplication: two
      videos that share a title are both written. */
  lemma FirstVideoSaveKeepsDuplicateTitles(a: VideoRecord, b: VideoRecord)
    requires a.title == b.title
    ensures SaveVideoData(None, [a, b]) == [a, b]
    ensures !UniqueKeys(SaveVideoData(None, [a, b]), VideoKey)
  {
    assert VideoKey([a, b][0]) == VideoKey([a, b][1]);
  }
}
