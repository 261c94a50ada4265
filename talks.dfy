/**
 * The microblog normaliser of app/talks.ts: each item of the service's
 * page response becomes a `TalkItem`, with a video, a website card or a
 * music player chosen by the item's extension type; any failure gives
 * the empty list.
 */
module Talks {
  import opened Wrappers
  import opened Strings
  import opened Types
  import opened Fetch

  datatype ApiTag = ApiTag(id: int, name: string, usageCount: int, createdAt: string)

  datatype ApiImage = ApiImage(id: int, messageId: int, imageUrl: string, imageSource: string)

  datatype ApiTalkItem = ApiTalkItem(
    id: int,
    content: string,
    username: string,
    layout: string,
    isPrivate: bool,
    userId: int,
    tags: Option<seq<ApiTag>>,
    images: Option<seq<ApiImage>>,
    extension: Option<string>,
    extensionType: Option<string>,
    favCount: int,
    createdAt: string)

  datatype ApiData = ApiData(total: int, items: seq<ApiTalkItem>)

  datatype ApiResponse = ApiResponse(code: int, msg: string, data: ApiData)

  /** The fields of a website extension that `JSON.parse` yields when it succeeds. */
  datatype SiteJson = SiteJson(title: string, site: string, description: Option<string>)

  /** `item.extension && item.extension_type === kind`. */
  predicate HasExtension(item: ApiTalkItem, kind: string) {
    item.extension.Some? && item.extension.value != "" && item.extensionType == Some(kind)
  }

  /** The regular expression `id=(\d+)` matches at index `i` of `s`. */
  predicate IdAt(s: string, i: int) {
    OccursAt(s, "id=", i) && i + 3 < |s| && IsDigit(s[i + 3])
  }

  /** The leftmost index at or after `from` where `id=(\d+)` matches. */
  function IdMatchFrom(s: string, from: nat): (r: Option<nat>)
    requires from <= |s|
    ensures r.Some? ==> from <= r.value && IdAt(s, r.value)
    ensures r.Some? ==> forall j :: from <= j < r.value ==> !IdAt(s, j)
    ensures r.None? ==> forall j :: from <= j ==> !IdAt(s, j)
    decreases |s| - from
  {
    if from == |s| then None
    else if IdAt(s, from) then Some(from)
    else IdMatchFrom(s, from + 1)
  }

  /**
   * `url.match(/id=(\d+)/)?.[1]`: the whole digit run after the leftmost
   * `id=` that is followed by a digit, or nothing when there is none.
   */
  function IdParam(url: string): (r: Option<string>)
    ensures r.None? <==> forall i :: !IdAt(url, i)
    ensures r.Some? ==> exists i :: IdAt(url, i) && (forall j :: 0 <= j < i ==> !IdAt(url, j))
                                    && r.value == DigitRun(url[i + 3..])
    ensures r.Some? ==> |r.value| > 0 && AllDigits(r.value)
  {
    match IdMatchFrom(url, 0)
    case None => None
    case Some(i) => Some(DigitRun(url[i + 3..]))
  }

  /** The music player of a `MUSIC` extension, when the source sets one. */
  function MusicOf(url: string): (r: Option<Music>)
    ensures r.Some? ==> r.value.url == url
    ensures r.None? <==> Contains(url, "music.163.com") && IdParam(url).None?
    ensures Contains(url, "music.163.com") && r.Some? ==>
      r.value.id == IdParam(url) && r.value.server == Some("netease") && r.value.kind == Some("song")
    ensures !Contains(url, "music.163.com") ==> r == Some(Music(url, None, None, None))
  {
    if Contains(url, "music.163.com") then
      match IdParam(url)
      case Some(id) => Some(Music(url, Some(id), Some("netease"), Some("song")))
      case None => None
    else Some(Music(url, None, None, None))
  }

  /** The per-item body of `fetchTalks`. */
  function NormaliseTalk(item: ApiTalkItem, parse: string -> Option<SiteJson>): (r: TalkItem)
    ensures r.id == Some(item.id) && r.text == Some(item.content) && r.date == item.createdAt
    ensures r.tags.Some?
    ensures item.tags.None? ==> r.tags.value == []
    ensures item.tags.Some? ==> (|r.tags.value| == |item.tags.value| &&
      forall i :: 0 <= i < |item.tags.value| ==> r.tags.value[i] == item.tags.value[i].name)
    ensures r.images.Some? <==> item.images.Some?
    ensures item.images.Some? ==> (|r.images.value| == |item.images.value| &&
      forall i :: 0 <= i < |item.images.value| ==> r.images.value[i] == item.images.value[i].imageUrl)
    ensures r.video.Some? <==> HasExtension(item, "VIDEO")
    ensures r.video.Some? ==> (r.video.value.id == item.extension.value && r.video.value.poster.None? &&
      r.video.value.kind == if |item.extension.value| == 11 then Some(Youtube) else Some(Bilibili))
    ensures r.website.Some? <==> HasExtension(item, "WEBSITE") && parse(item.extension.value).Some?
    ensures r.website.Some? ==>
      var site := parse(item.extension.value).value;
      r.website.value == Website(site.title, site.site, site.description)
    ensures r.music.Some? ==> HasExtension(item, "MUSIC") && r.music.value.url == item.extension.value
    ensures HasExtension(item, "MUSIC") && !Contains(item.extension.value, "music.163.com") ==>
      r.music == Some(Music(item.extension.value, None, None, None))
    ensures HasExtension(item, "MUSIC") && Contains(item.extension.value, "music.163.com") ==>
      (r.music.Some? <==> exists i :: IdAt(item.extension.value, i)) &&
      (r.music.Some? ==> r.music.value.id == IdParam(item.extension.value) &&
                         r.music.value.server == Some("netease") && r.music.value.kind == Some("song"))
    ensures (if r.video.Some? then 1 else 0) + (if r.website.Some? then 1 else 0) + (if r.music.Some? then 1 else 0) <= 1
  {
    var base := TalkItem(
      Some(item.id), Some(item.content), item.createdAt,
      if item.images.Some? then Some(seq(|item.images.value|, i requires 0 <= i < |item.images.value| => item.images.value[i].imageUrl)) else None,
      None, None, None,
      Some(if item.tags.Some? then seq(|item.tags.value|, i requires 0 <= i < |item.tags.value| => item.tags.value[i].name) else []));
    var withVideo :=
      if HasExtension(item, "VIDEO") then
        var ext := item.extension.value;
        base.(video := Some(Video(Some(if |ext| == 11 then Youtube else Bilibili), ext, None)))
      else base;
    var withWebsite :=
      if HasExtension(item, "WEBSITE") then
        match parse(item.extension.value)
        case Some(site) => withVideo.(website := Some(Website(site.title, site.site, site.description)))
        case None => withVideo
      else withVideo;
    if HasExtension(item, "MUSIC") then withWebsite.(music := MusicOf(item.extension.value))
    else withWebsite
  }

  /**
   * `fetchTalks` once the response is in hand: the empty list when the
   * request failed or the response code is not 1, otherwise one item per
   * response item, in order.
   */
  function FetchTalks(response: Response<ApiResponse>, parse: string -> Option<SiteJson>): (r: seq<TalkItem>)
    ensures response.Failed? || response.body.code != 1 ==> r == []
    ensures response.Received? && response.body.code == 1 ==>
      var items := response.body.data.items;
      |r| == |items| && forall i :: 0 <= i < |items| ==> r[i] == NormaliseTalk(items[i], parse)
  {
    if response.Failed? || response.body.code != 1 then []
    else
      var items := response.body.data.items;
      seq(|items|, i requires 0 <= i < |items| => NormaliseTalk(items[i], parse))
  }
}
