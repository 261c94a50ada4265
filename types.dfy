/**
 * Record shapes of app/types/talk.ts and app/types/mastodon.ts. Optional
 * properties are `Option`s. Properties that neither normaliser ever sets
 * (a video's `ratio`, a talk's `location`, the music player settings) are
 * not carried.
 */
module Types {
  import opened Wrappers

  datatype VideoKind = Raw | Bilibili | BilibiliNano | Youtube | Douyin | DouyinWide | Tiktok

  datatype Video = Video(kind: Option<VideoKind>, id: string, poster: Option<string>)

  datatype Website = Website(title: string, url: string, description: Option<string>)

  datatype Music = Music(url: string, id: Option<string>, server: Option<string>, kind: Option<string>)

  /** A normalised microblog post (`TalkItem`). */
  datatype TalkItem = TalkItem(
    id: Option<int>,
    text: Option<string>,
    date: string,
    images: Option<seq<string>>,
    video: Option<Video>,
    website: Option<Website>,
    music: Option<Music>,
    tags: Option<seq<string>>)

  /** A custom emoji of a Mastodon instance (`EmojiData`). */
  datatype Emoji = Emoji(shortcode: string, staticUrl: string, url: string, visibleInPicker: bool)

  datatype MediaKind = Image | VideoMedia | Gifv | Audio | Unknown

  /** A media attachment of a status (`MediaAttachment`), without its free-form `meta`. */
  datatype MediaAttachment = MediaAttachment(
    id: string,
    kind: MediaKind,
    url: string,
    previewUrl: string,
    remoteUrl: Option<string>,
    textUrl: Option<string>,
    description: Option<string>,
    blurhash: Option<string>)

  datatype MastodonTag = MastodonTag(name: string, url: string)

  /** A Mastodon status (`MastodonItem`); `inReplyToId` is `None` for both `null` and absent. */
  datatype MastodonItem = MastodonItem(
    id: string,
    content: string,
    createdAt: string,
    emojis: Option<seq<Emoji>>,
    mediaAttachments: Option<seq<MediaAttachment>>,
    reblog: Option<MastodonItem>,
    inReplyToId: Option<string>,
    tags: Option<seq<MastodonTag>>)

  /** A normalised status (`TransformedMastodonItem`); its `website` is never set and is not carried. */
  datatype TransformedMastodonItem = TransformedMastodonItem(
    id: string,
    text: string,
    date: string,
    images: Option<seq<string>>,
    video: Option<Video>,
    music: Option<Music>,
    tags: Option<seq<string>>,
    isReblog: bool,
    isReply: bool)
}
