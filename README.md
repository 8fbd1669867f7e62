# Anonymous board: a Dafny model

This project models the anonymous-board cog of a Discord bot and the two settings its
configuration module derives from the environment.

Members of a guild post to a board channel through a form. A post is either
anonymous, shown under a per-channel sequence number, or named, shown under the
author's display name. Each published post is recorded together with its true
author, and a small allow-list of users can look that up with `/board reveal`.
After every post the bot deletes its posting panel and sends it again, so that
the panel stays the newest message in the channel. Moderators can:

- set up a board channel;
- point it at a log channel, which receives a copy of every post;
- reset the counter;
- repost the panel by hand.

All persistent state lives in a key-value store with four key families:

- the panel anchor of a channel;
- the anonymous counter of a channel;
- the log channel of a channel;
- the record of a published post.

Modules:

- `Wrappers`: `Option`.
- `Ascii`: the ASCII subset of the text functions the bot uses:
  - strip and its one-sided forms;
  - upper-casing;
  - the digit test;
  - reading and writing decimal numbers.
- `Keys`: the four key families and how keys are written out.
- `ImageUrl`: the image-URL classifier and the search for the first image URL in a text, written out as the regular-expression searches they perform.
- `Board`: the store and the board itself:
  - the store, as a map from keys to values;
  - the specification functions of each step;
  - the class `AnonBoard`, whose methods update the store and the log of platform events in place.
- `Config`: the guild-id list and the log level, computed from the environment variables.

The store invariant `Board.StoreValid` is kept by every method of `AnonBoard`. It says that:

- post keys hold only post records, each under its own message id;
- panel, counter and log-channel keys hold only decimal numbers.

Two behaviours of the code are worth knowing:

- **Images.** The chosen image is published with the post straight away. There is no approval step.
- **Numbering.** The next anonymous number is taken before the body is checked for being non-empty, so a rejected anonymous submission still uses up a number (`Board.EmptyBodyConsumesNumber`).

## Model

| member | source | states |
|---|---|---|
| Keys.Key | cogs/feature_one.py:14-29 | A key is its family's prefix followed by a string of decimal digits that reads back as the id. |
| Keys.KeyInjective | cogs/feature_one.py:14-29 | Two keys are equal exactly when their family and id agree, so the four key families never collide. |
| Ascii.StripStart | config.py:11 | Left strip: the result is a suffix of the input, what was removed is all whitespace, and the result does not start with whitespace. |
| Ascii.StripEnd | config.py:11 | Right strip: the result is a prefix of the input, what was removed is all whitespace, and the result does not end with whitespace. |
| Ascii.StripSlice | cogs/feature_one.py:91 | Strip keeps a contiguous slice of the input, bordered on both sides by whitespace only, and the slice neither starts nor ends with whitespace. |
| Ascii.StripEmptyIffAllSpace | cogs/feature_one.py:91-92 | A body strips to the empty string exactly when it is all whitespace. |
| Ascii.StripIdempotent | cogs/feature_one.py:97 | Stripping twice is the same as stripping once. |
| Ascii.Upper | config.py:7 | Upper-casing keeps the length and leaves no lower-case letter, and each character agrees with the input's character up to case. |
| Ascii.NatToString | cogs/feature_one.py:85-86 | The decimal form of a number is a non-empty string of digits with no leading zero. |
| Ascii.ParseNatToString | cogs/feature_one.py:83-85 | Reading back the decimal form of a number gives the number. |
| Ascii.NatToStringInjective | cogs/feature_one.py:85-86 | Two numbers have the same decimal form exactly when they are equal. |
| ImageUrl.AnyExtensionAtSpec | cogs/feature_one.py:32 | The extension alternation matches at a position exactly when one of its alternatives does. |
| ImageUrl.SearchExtensionSpec | cogs/feature_one.py:37 | The extension search succeeds from a position exactly when some later position holds a dot and an image extension in any case, followed by the end of the text or by a query. |
| ImageUrl.OccursFromSpec | cogs/feature_one.py:40 | The substring test from a position succeeds exactly when the substring occurs at some later position. |
| ImageUrl.AnyHostSpec | cogs/feature_one.py:39-40 | The host test succeeds exactly when one of the CDN host names occurs in the URL. |
| ImageUrl.IsImageUrlSpec | cogs/feature_one.py:35-40 | A URL is image-like exactly when it has an image extension at its end (possibly before a query) or contains one of the four CDN host names. |
| ImageUrl.RunEnd | cogs/feature_one.py:33 | The greedy run of non-whitespace stops at the end of the text or at the first whitespace character. |
| ImageUrl.UrlAtSpec | cogs/feature_one.py:33 | A URL match found at a position is URL-shaped and cannot be extended. When none is found, no slice starting there is URL-shaped. |
| ImageUrl.ShapedSliceMatches | cogs/feature_one.py:33 | Any URL-shaped slice starting at a position makes the URL search at that position succeed. |
| ImageUrl.FindUrls | cogs/feature_one.py:43 | Every span the scan finds is a URL match at its own start, and the spans come in order without overlapping. |
| ImageUrl.FindUrlsComplete | cogs/feature_one.py:43 | The scan skips no match: every position where a URL match starts lies inside one of the spans it found. |
| ImageUrl.SpanText | cogs/feature_one.py:33 | The text of a match is its whole span, occurring in the text at the span's start, and is URL-shaped. |
| ImageUrl.UrlMatches | cogs/feature_one.py:43 | Each URL the scan returns is the whole of its span: it occurs in the text at the span's start, has the span's length, and is URL-shaped. |
| ImageUrl.FirstImage | cogs/feature_one.py:43-46 | The loop returns nothing exactly when no URL is image-like. Otherwise it returns the first image-like URL, and every URL before it is not image-like. |
| ImageUrl.ExtractFirstImageUrl | cogs/feature_one.py:42-46 | The first image URL of a text, when there is one: a URL-shaped, image-like substring of the text, and every earlier match is not image-like. It returns nothing exactly when no match is image-like. |
| ImageUrl.UrlFreeTextHasNoImage | cogs/feature_one.py:42-46 | A missing text, or a text with no URL-shaped slice, yields no image. |
| Board.StoredNumberRoundTrip | cogs/feature_one.py:83-85 | A number written under a key reads back as that number. |
| Board.ConsumeAdvancesCounter | cogs/feature_one.py:81-86 | An anonymous submission raises its channel's counter by exactly one, with an absent or non-numeric value read as 0, and leaves every other channel's counter unchanged. |
| Board.AnonymousNameIsCounter | cogs/feature_one.py:84-86 | The number an anonymous post is shown under is exactly the counter value it stores. |
| Board.ResetRestartsNumbering | cogs/feature_one.py:265 | After a reset the counter reads 0, so the next anonymous post is shown as "1". |
| Board.AnonymousRunNumbers | cogs/feature_one.py:81-86 | Consecutive anonymous submissions without a reset are numbered from the old counter plus 1 upward, with none repeated or skipped, and the counter ends higher by their number. |
| Board.ChooseImage | cogs/feature_one.py:96-102 | The chosen image is empty or image-like. A non-empty form field takes precedence over the body, and if it is not image-like it is dropped rather than replaced by a URL from the body. An empty field falls back to the body's first image URL. |
| Board.ChooseImageOption | cogs/feature_one.py:122 | The record holds no image exactly when the chosen image is empty, and otherwise holds the chosen image, which is non-empty and image-like. |
| Board.SubmitImage | cogs/feature_one.py:96-102 | The image of a submission, when there is one, is image-like. |
| Board.SubmitRecord | cogs/feature_one.py:113-123 | The post record names the true author whatever the anonymous flag. It holds the shown name exactly when the post is anonymous, and it holds the chosen image. |
| Board.RepostPanelSpec | cogs/feature_one.py:164-187 | Repost on a missing channel changes nothing. Otherwise it sends exactly one panel, as its last event, and deletes at most the old anchor, exactly when the anchor is a number and the deletion succeeds. The anchor then reads the new panel's id, and no other key changes. |
| Board.SubmitAdvancesCounter | cogs/feature_one.py:80-94 | A submission to an existing channel raises its counter by one exactly when it is anonymous, whether or not the body is accepted. No other channel's counter moves. |
| Board.EmptyBodyConsumesNumber | cogs/feature_one.py:80-94 | A whitespace-only submission sends nothing and writes no key except its channel's counter, which still advances when the submission is anonymous. |
| Board.SubmitRecordsAuthor | cogs/feature_one.py:112-124 | After a published submission, the key of the new message holds a record with the true author and the channel. It holds the shown number only when the post is anonymous, and it holds the chosen image. |
| Board.SubmitEventsShape | cogs/feature_one.py:104-147 | A published submission first sends the post to its channel and ends with the new panel there, and no other event publishes a post, so there is exactly one post message. A rejected submission sends nothing. |
| Board.SubmitEventsMiddle | cogs/feature_one.py:126-145 | Between the post and the panel come at most the log card and then at most one deletion. The log card goes to the configured log channel and names the post and its true author. The deletion removes the panel anchored after the counter was written. |
| Board.AnonymousPostHidesAuthor | cogs/feature_one.py:104-110 | The public post of an anonymous submission is the same whoever the author is, and it is shown under the next counter value. |
| Board.SubmitKeepsValid | cogs/feature_one.py:73-147 | A submission keeps the store invariant. |
| Board.AnonBoard.RepostPanel | cogs/feature_one.py:164-187 | The store and the event log become those given by the panel specification, and the invariant is kept. |
| Board.AnonBoard.OnSubmit | cogs/feature_one.py:73-147 | The reply is: channel not found, or empty body, or posted. The store and the event log become those of the submission specification, and the invariant is kept. |
| Board.AnonBoard.NameAuthor | cogs/feature_one.py:80-88 | An anonymous author is shown under the incremented counter, which is stored. A named author is shown under their display name and nothing is written. |
| Board.AnonBoard.Publish | cogs/feature_one.py:104-145 | Publishing sends the post, records it under its message id, sends the log copy when a log channel is configured, and reposts the panel. |
| Board.AnonBoard.SetupBoard | cogs/feature_one.py:207-234 | Without the permission, or without a text channel, nothing changes. Otherwise it optionally writes "0" to the counter and the log channel's id, then reposts the panel. The invariant is kept. |
| Board.AnonBoard.SetLog | cogs/feature_one.py:241-255 | Without the permission, or when the target or the log channel is missing, nothing changes. Otherwise it writes the log channel's id under the target's log-channel key and changes nothing else. |
| Board.AnonBoard.ResetCounter | cogs/feature_one.py:259-266 | With the permission and a text channel, it writes "0" under the counter key and changes nothing else. Otherwise nothing changes. |
| Board.AnonBoard.RefreshPanel | cogs/feature_one.py:270-277 | With the permission and a text channel, it reposts the panel as the panel specification says. Otherwise nothing changes. |
| Board.AnonBoard.Reveal | cogs/feature_one.py:281-303 | A caller outside the allow-list is refused before any lookup. A missing or empty record is reported as unrecorded. Otherwise the stored author identity is returned, whatever the anonymous flag. In a valid store, a record is found exactly when the key is present. |
| Config.Split | config.py:11 | Splitting yields at least one piece. |
| Config.SplitPiecesFree | config.py:11 | No piece contains the separator. |
| Config.JoinSplit | config.py:11 | Joining the pieces with the separator gives back the string. |
| Config.SplitCount | config.py:11 | There is one more piece than there are separators. |
| Config.SplitJoin | config.py:11 | Splitting undoes joining pieces that do not contain the separator. |
| Config.SplitNoSeparator | config.py:11 | A string without the separator is a single piece. |
| Config.SplitConcat | config.py:11 | The pieces of a + separator + b are the pieces of a followed by those of b. |
| Config.GuildIds | config.py:11 | The comprehension never yields more ids than there are pieces. |
| Config.TokenId | config.py:11 | One piece contributes at most one id. |
| Config.GuildIdsAppend | config.py:11 | The comprehension works piece by piece, in order. |
| Config.GuildIdsSingle | config.py:11 | A piece yields its number exactly when its stripped form is all digits. Empty pieces and pieces with a sign or a letter are dropped. |
| Config.ParseGuildIdsBound | config.py:10-11 | There are never more guild ids than commas plus one. |
| Config.NoGuildIds | config.py:10-11 | An unset or empty variable yields no guild ids. |
| Config.ParseGuildIdsConcat | config.py:10-11 | The ids of two comma-joined parts are the ids of each part, in order, so a malformed entry drops only itself. |
| Config.ParseGuildIdsSingle | config.py:10-11 | A value with no comma yields its number when its stripped form is all digits, and nothing otherwise. |
| Config.StripNumber | config.py:11 | A decimal number has nothing to strip. |
| Config.ParseFormatGuildIds | config.py:10-11 | Any list of ids, written comma-separated in decimal, is read back as the same list. |
| Config.LogLevel | config.py:7 | The log level is "INFO" when unset. Otherwise it is the value with the same length, no lower-case letter, and the same letters up to case. |
| Config.LogLevelIdempotent | config.py:7 | Upper-casing the level again changes nothing. |

## Left out

- The SQLite layer and its lock are not modelled. `kv_get` is a map lookup, `kv_set` a map update.
- The store is indexed by a `(family, id)` key rather than by the written-out key string. `Keys.KeyInjective` shows that the two index the same entries.
- Post records are a datatype rather than JSON text. Since the bot never writes malformed JSON, a text value under a post key is answered `Unreadable` by `Reveal`; in a store satisfying the invariant this cannot happen.
- The platform is given abstractly:
  - the ids that resolve to a text channel are a set;
  - new message ids are parameters;
  - whether fetching and deleting the old panel succeeds is a boolean;
  - messages sent and deleted go to an event log.
- Embed layout is not modelled: titles, colours, footers, mentions and jump links. A post is its body, its shown name and its image; a log copy adds the anonymous flag, the author's id and the post's id.
- Ephemeral replies are result tags.
- Permission checks are booleans, and the "is a text channel" test on a command's target is an optional id.
- Every platform send is assumed to succeed; only the best-effort fetch and deletion of the old panel can fail (`deleteOk`). In the code, a failed send aborts the handler part-way:
  - if the post itself cannot be sent, an anonymous submission has already stored its number, but no record is written and the panel is not reposted;
  - if the log card cannot be sent, the record is written but the panel is not reposted;
  - if the new panel cannot be sent after the old one was deleted, the anchor key still names the deleted message.
- Concurrency is out: each handler runs atomically. Two submissions interleaving at the counter's read and write are not modelled.
- Unicode is out: the text functions cover ASCII.
  - Digits are 0-9.
  - Whitespace is the ASCII whitespace Python recognises.
  - Case mapping covers ASCII letters only.
  - Non-ASCII digits, Unicode whitespace and case mappings that change a string's length are not modelled.
- Ids are unbounded naturals.
- The form's timeout and its field length limits are not modelled.
- Startup, logging setup, extension loading and command-tree sync in `bot.py` are not modelled. Neither are the other cogs, `DISCORD_TOKEN` or loading `.env`.
- The buttons of the panel only open the form with the anonymous flag set or clear. They are represented by that flag in `Board.Submission`.
