/**
 * The Mastodon normaliser of app/mastodon.ts: the first 30 statuses of
 * an account become `TransformedMastodonItem`s, taken from the boosted
 * status when there is one, with image and video attachments picked out
 * and `:shortcode:` custom emoji replaced by images; any failure gives
 * the empty list.
 */
module Mastodon {
  import opened Wrappers
  import opened Strings
  import opened Types
  import opened Fetch

  /** The most statuses shown (`shownMax`). */
  const ShownMax := 30

  /** `item.reblog || item`: the status whose content is shown. */
  function Target(item: MastodonItem): MastodonItem {
    match item.reblog
    case Some(boosted) => boosted
    case None => item
  }

  /** The URLs of the `image` attachments, in order. */
  function ImageUrls(media: seq<MediaAttachment>): (r: seq<string>)
    ensures |r| <= |media|
    ensures forall i :: 0 <= i < |media| && media[i].kind == Image ==> media[i].url in r
    ensures forall u :: u in r ==> exists i :: 0 <= i < |media| && media[i].kind == Image && media[i].url == u
  {
    if media == [] then []
    else (if media[0].kind == Image then [media[0].url] else []) + ImageUrls(media[1..])
  }

  /** Filtering and mapping keep attachment order: the URLs of `a + b` are those of `a`, then those of `b`. */
  lemma {:induction false} ImageUrlsAppend(a: seq<MediaAttachment>, b: seq<MediaAttachment>)
    ensures ImageUrls(a + b) == ImageUrls(a) + ImageUrls(b)
  {
    if a != [] {
      assert (a + b)[1..] == a[1..] + b;
      ImageUrlsAppend(a[1..], b);
    } else {
      assert a + b == b;
    }
  }

  predicate IsVideo(m: MediaAttachment) {
    m.kind == VideoMedia || m.kind == Gifv
  }

  /** The index of the first `video` or `gifv` attachment at or after `from`. */
  function FirstVideoFrom(media: seq<MediaAttachment>, from: nat): (r: Option<nat>)
    requires from <= |media|
    ensures r.Some? ==> from <= r.value < |media| && IsVideo(media[r.value])
    ensures r.Some? ==> forall j :: from <= j < r.value ==> !IsVideo(media[j])
    ensures r.None? ==> forall j :: from <= j < |media| ==> !IsVideo(media[j])
    decreases |media| - from
  {
    if from == |media| then None
    else if IsVideo(media[from]) then Some(from)
    else FirstVideoFrom(media, from + 1)
  }

  /** `{ type: 'raw', id, poster: preview_url }` for the first video attachment, if any. */
  function VideoOf(media: Option<seq<MediaAttachment>>): Option<Video> {
    match media
    case None => None
    case Some(m) =>
      match FirstVideoFrom(m, 0)
      case None => None
      case Some(i) => Some(Video(Some(Raw), m[i].id, Some(m[i].previewUrl)))
  }

  /** `s` starts with `:name:` where the name is a run of `n` word characters. */
  predicate ShortcodeOfLength(s: string, n: int) {
    1 <= n && n + 2 <= |s| && s[0] == ':' && IsWordName(s[1..n + 1]) && s[n + 1] == ':'
  }

  /**
   * The length of the name when the regular expression `:(\w+):` matches
   * at the start of `s`; there is at most one such length.
   */
  function ShortcodeAt(s: string): (r: Option<nat>)
    ensures r.Some? ==> ShortcodeOfLength(s, r.value)
    ensures r.None? ==> forall n :: !ShortcodeOfLength(s, n)
  {
    if |s| < 3 || s[0] != ':' then None
    else
      var n := WordRunLength(s[1..]);
      if n >= 1 && n + 1 < |s| && s[n + 1] == ':' then Some(n)
      else None
  }

  /** The first emoji whose shortcode is `name` (`emojis.find(e => e.shortcode === name)`). */
  function FindEmoji(emojis: seq<Emoji>, name: string): (r: Option<Emoji>)
    ensures r.Some? ==> r.value in emojis && r.value.shortcode == name
    ensures r.Some? ==> exists k :: (0 <= k < |emojis| && emojis[k] == r.value &&
      forall j :: 0 <= j < k ==> emojis[j].shortcode != name)
    ensures r.None? <==> forall k :: 0 <= k < |emojis| ==> emojis[k].shortcode != name
  {
    if emojis == [] then None
    else if emojis[0].shortcode == name then Some(emojis[0])
    else
      var r := FindEmoji(emojis[1..], name);
      assert r.Some? ==> exists k :: (0 <= k < |emojis| && emojis[k] == r.value &&
        forall j :: 0 <= j < k ==> emojis[j].shortcode != name) by {
        if r.Some? {
          var k :| 0 <= k < |emojis[1..]| && emojis[1..][k] == r.value &&
            forall j :: 0 <= j < k ==> emojis[1..][j].shortcode != name;
          assert emojis[k + 1] == r.value;
          forall j | 0 <= j < k + 1
            ensures emojis[j].shortcode != name
          {
            if j > 0 {
              assert emojis[j] == emojis[1..][j - 1];
            }
          }
        }
      }
      r
  }

  function ImgTag(staticUrl: string, name: string): string {
    "<img class=\"emoji\" src=\"" + staticUrl + "\" alt=\"" + name + "\"/>"
  }

  /**
   * `content.replace(/:(\w+):/g, ...)`: scanning left to right, each
   * `:name:` becomes the image of the first emoji with that shortcode, or
   * is kept as it is when there is none; either way the scan resumes
   * after its closing colon.
   */
  function ReplaceEmoji(s: string, emojis: seq<Emoji>): string
    decreases |s|
  {
    if s == [] then []
    else
      match ShortcodeAt(s)
      case Some(n) =>
        var name := s[1..n + 1];
        var replacement := match FindEmoji(emojis, name)
          case Some(e) => ImgTag(e.staticUrl, name)
          case None => s[..n + 2];
        replacement + ReplaceEmoji(s[n + 2..], emojis)
      case None => [s[0]] + ReplaceEmoji(s[1..], emojis)
  }

  /**
   * `formatContent(content, emojis)`: without an emoji list, or with an
   * empty one, the content is kept as it is.
   */
  function FormatContent(content: string, emojis: Option<seq<Emoji>>): (r: string)
    ensures emojis.None? ==> r == content
    ensures emojis == Some([]) ==> r == content
    ensures emojis.Some? ==> r == ReplaceEmoji(content, emojis.value)
  {
    match emojis
    case None => content
    case Some(list) =>
      var r := ReplaceEmoji(content, list);
      assert list == [] ==> r == content by {
        if list == [] {
          ReplaceEmojiUnmatched(content, list);
        }
      }
      r
  }

  /** When no emoji has a shortcode that `\w+` can match, in particular for an empty list, nothing is replaced. */
  lemma {:induction false} ReplaceEmojiUnmatched(s: string, emojis: seq<Emoji>)
    requires forall k :: 0 <= k < |emojis| ==> !IsWordName(emojis[k].shortcode)
    ensures ReplaceEmoji(s, emojis) == s
    decreases |s|
  {
    if s != [] {
      match ShortcodeAt(s)
      case Some(n) =>
        NoEmojiNamed(emojis, s[1..n + 1]);
        ReplaceEmojiUnmatched(s[n + 2..], emojis);
        assert s[..n + 2] + s[n + 2..] == s;
      case None =>
        ReplaceEmojiUnmatched(s[1..], emojis);
        assert [s[0]] + s[1..] == s;
    }
  }

  lemma NoEmojiNamed(emojis: seq<Emoji>, name: string)
    requires forall k :: 0 <= k < |emojis| ==> !IsWordName(emojis[k].shortcode)
    requires IsWordName(name)
    ensures FindEmoji(emojis, name).None?
  {
  }

  /** A known `:name:` at the front becomes its image, and the rest is rewritten on its own. */
  lemma ReplaceEmojiKnown(name: string, rest: string, emojis: seq<Emoji>)
    requires IsWordName(name) && FindEmoji(emojis, name).Some?
    ensures ReplaceEmoji(":" + name + ":" + rest, emojis)
      == ImgTag(FindEmoji(emojis, name).value.staticUrl, name) + ReplaceEmoji(rest, emojis)
  {
    ShortcodeOfName(name, rest);
    var s := ":" + name + ":" + rest;
    assert s[1..|name| + 1] == name && s[|name| + 2..] == rest;
    var e := FindEmoji(emojis, name).value;
    assert ReplaceEmoji(s, emojis) == ImgTag(e.staticUrl, name) + ReplaceEmoji(s[|name| + 2..], emojis);
  }

  /**
   * An unknown `:name:` at the front is kept and its closing colon is
   * consumed: the rest is rewritten on its own, so that colon never opens
   * another match.
   */
  lemma ReplaceEmojiUnknown(name: string, rest: string, emojis: seq<Emoji>)
    requires IsWordName(name) && FindEmoji(emojis, name).None?
    ensures ReplaceEmoji(":" + name + ":" + rest, emojis) == ":" + name + ":" + ReplaceEmoji(rest, emojis)
  {
    ShortcodeOfName(name, rest);
    var s := ":" + name + ":" + rest;
    assert s[1..|name| + 1] == name && s[|name| + 2..] == rest && s[..|name| + 2] == ":" + name + ":";
  }

  /** Where no `:name:` starts, the character is kept and the scan moves on by one. */
  lemma ReplaceEmojiStep(s: string, emojis: seq<Emoji>)
    requires s != [] && ShortcodeAt(s).None?
    ensures ReplaceEmoji(s, emojis) == [s[0]] + ReplaceEmoji(s[1..], emojis)
  {
  }

  /** Text without a colon is copied as it is, and the scan goes on after it. */
  lemma {:induction false} ReplaceEmojiPlain(p: string, rest: string, emojis: seq<Emoji>)
    requires ':' !in p
    ensures ReplaceEmoji(p + rest, emojis) == p + ReplaceEmoji(rest, emojis)
    decreases |p|
  {
    if p != [] {
      var s := p + rest;
      assert s[0] == p[0] && s[1..] == p[1..] + rest;
      assert p[0] in p;
      assert ShortcodeAt(s).None?;
      assert ':' !in p[1..] by {
        forall i | 0 <= i < |p[1..]|
          ensures p[1..][i] != ':'
        {
          assert p[1..][i] == p[i + 1] && p[i + 1] in p;
        }
      }
      ReplaceEmojiStep(s, emojis);
      ReplaceEmojiPlain(p[1..], rest, emojis);
      calc {
        ReplaceEmoji(s, emojis);
        [p[0]] + ReplaceEmoji(p[1..] + rest, emojis);
        [p[0]] + (p[1..] + ReplaceEmoji(rest, emojis));
        ([p[0]] + p[1..]) + ReplaceEmoji(rest, emojis);
        { assert [p[0]] + p[1..] == p; }
        p + ReplaceEmoji(rest, emojis);
      }
    } else {
      assert p + rest == rest;
    }
  }

  lemma ShortcodeOfName(name: string, rest: string)
    requires IsWordName(name)
    ensures ShortcodeAt(":" + name + ":" + rest) == Some(|name|)
  {
    var s := ":" + name + ":" + rest;
    assert s[1..|name| + 1] == name;
    assert s[|name| + 1] == ':';
  }

  /** The per-item body of `fetchMastodonPosts`. */
  function NormaliseStatus(item: MastodonItem): (r: TransformedMastodonItem)
    ensures var t := Target(item);
      r.id == t.id && r.date == t.createdAt && r.text == FormatContent(t.content, t.emojis)
    ensures r.isReblog <==> item.reblog.Some?
    ensures r.isReply <==> Target(item).inReplyToId.Some? && Target(item).inReplyToId.value != ""
    ensures var media := Target(item).mediaAttachments;
      r.images == if media.Some? && ImageUrls(media.value) != [] then Some(ImageUrls(media.value)) else None
    ensures var media := Target(item).mediaAttachments;
      r.video.Some? <==> media.Some? && exists i :: 0 <= i < |media.value| && IsVideo(media.value[i])
    ensures r.video.Some? ==>
      var media := Target(item).mediaAttachments.value;
      exists i :: 0 <= i < |media| && IsVideo(media[i]) && (forall j :: 0 <= j < i ==> !IsVideo(media[j])) &&
                  r.video.value == Video(Some(Raw), media[i].id, Some(media[i].previewUrl))
    ensures r.music.None?
    ensures var tags := Target(item).tags;
      (r.tags.Some? <==> tags.Some?) &&
      (tags.Some? ==> |r.tags.value| == |tags.value| &&
                      forall i :: 0 <= i < |tags.value| ==> r.tags.value[i] == tags.value[i].name)
  {
    var t := Target(item);
    var images := if t.mediaAttachments.Some? then Some(ImageUrls(t.mediaAttachments.value)) else None;
    var tags := if t.tags.Some? then Some(seq(|t.tags.value|, i requires 0 <= i < |t.tags.value| => t.tags.value[i].name)) else None;
    TransformedMastodonItem(
      t.id,
      FormatContent(t.content, t.emojis),
      t.createdAt,
      if images.Some? && |images.value| > 0 then images else None,
      VideoOf(t.mediaAttachments),
      None,
      tags,
      item.reblog.Some?,
      t.inReplyToId.Some? && t.inReplyToId.value != "")
  }

  /**
   * `fetchMastodonPosts` once the response is in hand: the empty list when
   * the request failed or the response is not ok, otherwise the first 30
   * statuses normalised, in order.
   */
  function FetchMastodonPosts(response: Response<seq<MastodonItem>>): (r: seq<TransformedMastodonItem>)
    ensures response.Failed? || !response.ok ==> r == []
    ensures response.Received? && response.ok ==>
      |r| == (if |response.body| < ShownMax then |response.body| else ShownMax) &&
      forall i :: 0 <= i < |r| ==> r[i] == NormaliseStatus(response.body[i])
  {
    if response.Failed? || !response.ok then []
    else
      var shown := if |response.body| < ShownMax then response.body else response.body[..ShownMax];
      seq(|shown|, i requires 0 <= i < |shown| => NormaliseStatus(shown[i]))
  }
}
