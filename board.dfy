/**
 * The anonymous board: its state in the key-value store, the submission of a
 * post, the self-anchoring panel, the configuration commands and `reveal`.
 *
 * The platform is given abstractly: `textChannels` is the set of ids that the
 * client resolves to a text channel, the ids of new messages are parameters,
 * `deleteOk` says whether fetching and deleting the old panel succeeds, and every
 * message sent or deleted is appended to the `log` of platform events.
 */
module Board {
  import opened Wrappers
  import opened Ascii
  import opened Keys
  import opened ImageUrl

  /** `ALLOWED_USER_IDS`: the only users who may run `/board reveal`. */
  const AllowedUserIds: set<nat> := {716667546241335328, 440893662701027328}

  datatype User = User(id: nat, name: string, display: string)

  datatype Permissions = Permissions(manageChannels: bool, manageGuild: bool, administrator: bool)

  /** The fields of the JSON object stored for every published post. */
  datatype PostRecord = PostRecord(
    guildId: Option<nat>,
    channelId: nat,
    messageId: nat,
    anonymous: bool,
    anonDisplay: Option<string>,
    authorId: nat,
    authorName: string,
    authorDisplay: string,
    imgUrl: Option<string>)

  /** A stored value: plain text, or a post record (the decoded form of its JSON). */
  datatype Value = Text(text: string) | Record(post: PostRecord)

  type Store = map<StoreKey, Value>

  datatype Message =
    | PostEmbed(body: string, shownAs: string, image: Option<string>)
    | LogEmbed(body: string, anonymous: bool, shownAs: string, authorId: nat, postId: nat, image: Option<string>)
    | PanelMessage

  datatype Event = Sent(channel: nat, id: nat, message: Message) | Deleted(channel: nat, id: nat)

  datatype SubmitReply = ChannelNotFound | EmptyBody | Posted

  datatype CommandReply =
    | NoPermission
    | NotTextChannel
    | BadChannels
    | BoardSetUp(channel: nat, logChannel: Option<nat>, counterReset: bool)
    | LogChannelSet(channel: nat, logTo: nat)
    | CounterReset(channel: nat)
    | PanelReposted(channel: nat)

  datatype RevealReply =
    | NotAllowed
    | NotRecorded
    | Unreadable
    | Revealed(anonymous: bool, anonDisplay: Option<string>, authorId: nat, authorName: string, authorDisplay: string)

  predicate CanManageChannels(p: Permissions) {
    p.manageChannels || p.administrator
  }

  predicate CanManageGuild(p: Permissions) {
    p.manageGuild || p.administrator
  }

  // ------------------------------------------------------------ reading the store

  /** A number read from the store: present, text, `s.isdigit()`, then `int(s)`. */
  function StoredNumber(kv: Store, key: StoreKey): Option<nat> {
    if key in kv && kv[key].Text? && IsAllDigits(kv[key].text) then Some(ParseNat(kv[key].text)) else None
  }

  /** Writing `str(n)` under a key and reading it back as a number gives `n`. */
  lemma StoredNumberRoundTrip(kv: Store, key: StoreKey, n: nat)
    ensures StoredNumber(kv[key := Text(NatToString(n))], key) == Some(n)
  {
    ParseNatToString(n);
  }

  /** The anonymous counter of channel `c`: an absent or non-numeric value reads as 0. */
  function CounterValue(kv: Store, c: nat): nat {
    StoredNumber(kv, StoreKey(Counter, c)).GetOr(0)
  }

  /** The counter after the read-increment-write of an anonymous submission. */
  function Consume(kv: Store, c: nat): Store {
    kv[StoreKey(Counter, c) := Text(NatToString(CounterValue(kv, c) + 1))]
  }

  /** The name a post is shown under: the new counter value when anonymous,
      the author's display name otherwise. */
  function ShownName(kv: Store, c: nat, anonymous: bool, user: User): string {
    if anonymous then NatToString(CounterValue(kv, c) + 1) else user.display
  }

  /** An anonymous submission advances its channel's counter by exactly one and
      leaves every other channel's counter alone. */
  lemma ConsumeAdvancesCounter(kv: Store, c: nat)
    ensures CounterValue(Consume(kv, c), c) == CounterValue(kv, c) + 1
    ensures forall d :: d != c ==> CounterValue(Consume(kv, c), d) == CounterValue(kv, d)
  {
    StoredNumberRoundTrip(kv, StoreKey(Counter, c), CounterValue(kv, c) + 1);
  }

  /** After a reset the counter reads 0, so the next anonymous post is shown as "1". */
  lemma ResetRestartsNumbering(kv: Store, c: nat, user: User)
    ensures CounterValue(kv[StoreKey(Counter, c) := Text("0")], c) == 0
    ensures ShownName(kv[StoreKey(Counter, c) := Text("0")], c, true, user) == "1"
  {
    assert NatToString(0) == "0";
    StoredNumberRoundTrip(kv, StoreKey(Counter, c), 0);
    assert NatToString(1) == "1";
  }

  /** The numbers shown by `n` consecutive anonymous submissions to channel `c`
      (successful or rejected as empty) with no reset in between, and the store after them. */
  function AnonymousRun(kv: Store, c: nat, n: nat): (Store, seq<nat>)
    decreases n
  {
    if n == 0 then (kv, [])
    else
      var (kv', shown) := AnonymousRun(kv, c, n - 1);
      (Consume(kv', c), shown + [CounterValue(kv', c) + 1])
  }

  /** `n` consecutive anonymous submissions are numbered start+1, ..., start+n in
      order, where start is the counter before them: no number is repeated or skipped. */
  lemma {:induction false} AnonymousRunNumbers(kv: Store, c: nat, n: nat)
    ensures |AnonymousRun(kv, c, n).1| == n
    ensures CounterValue(AnonymousRun(kv, c, n).0, c) == CounterValue(kv, c) + n
    ensures forall i :: 0 <= i < n ==> AnonymousRun(kv, c, n).1[i] == CounterValue(kv, c) + i + 1
    decreases n
  {
    if n > 0 {
      AnonymousRunNumbers(kv, c, n - 1);
      ConsumeAdvancesCounter(AnonymousRun(kv, c, n - 1).0, c);
    }
  }

  // ------------------------------------------------------------- choosing the image

  /** The image of a submission: the stripped form field when it is non-empty,
      otherwise the first image URL of the body; anything not image-like is dropped. */
  function ChooseImage(content: string, rawImg: string): (img: string)
    ensures img == "" || IsImageUrl(img)
    ensures Strip(rawImg) != "" ==> (img == Strip(rawImg) <==> IsImageUrl(Strip(rawImg)))
    ensures Strip(rawImg) != "" ==> img == "" || img == Strip(rawImg)
    ensures Strip(rawImg) == "" ==> img == ExtractFirstImageUrl(Some(content)).GetOr("")
  {
    var img := Strip(rawImg);
    var img := if img == "" then ExtractFirstImageUrl(Some(content)).GetOr("") else img;
    if img != "" && !IsImageUrl(img) then "" else img
  }

  /** The chosen image as the record stores it: `img or None`. */
  function ChooseImageOption(content: string, rawImg: string): (image: Option<string>)
    ensures image.Some? ==> image.value != "" && IsImageUrl(image.value)
    ensures image.None? <==> ChooseImage(content, rawImg) == ""
    ensures image.Some? ==> image.value == ChooseImage(content, rawImg)
  {
    var img := ChooseImage(content, rawImg);
    if img == "" then None else Some(img)
  }

  /** The post record written by a submission: the true author whatever the anonymous
      flag, the shown name only for an anonymous post, and the chosen image if any. */
  function SubmitRecord(anonymous: bool, user: User, guildId: Option<nat>, c: nat, postId: nat, shown: string,
                        image: Option<string>): (r: PostRecord)
    ensures r.messageId == postId && r.channelId == c && r.anonymous == anonymous
    ensures r.authorId == user.id && r.authorName == user.name && r.authorDisplay == user.display
    ensures r.anonDisplay.Some? <==> anonymous
    ensures anonymous ==> r.anonDisplay == Some(shown)
    ensures r.imgUrl == image
  {
    PostRecord(guildId, c, postId, anonymous, if anonymous then Some(shown) else None,
               user.id, user.name, user.display, image)
  }

  /** The log channel configured for board channel `c`, when it resolves to a text channel. */
  function LogDestination(kv: Store, c: nat, textChannels: set<nat>): Option<nat> {
    match StoredNumber(kv, StoreKey(LogChannel, c))
    case Some(l) => if l in textChannels then Some(l) else None
    case None => None
  }

  function LogEvents(kv: Store, c: nat, textChannels: set<nat>, logMessageId: nat, card: Message): seq<Event> {
    match LogDestination(kv, c, textChannels)
    case Some(l) => [Sent(l, logMessageId, card)]
    case None => []
  }

  // ------------------------------------------------------------------ the panel

  /** The platform events of `repost_panel`: the old anchor is deleted when it is a
      number and the deletion succeeds, then a new panel is sent. */
  function PanelEvents(kv: Store, c: nat, textChannels: set<nat>, panelId: nat, deleteOk: bool): seq<Event> {
    if c !in textChannels then []
    else
      var anchor := StoredNumber(kv, StoreKey(Panel, c));
      (if anchor.Some? && deleteOk then [Deleted(c, anchor.value)] else []) + [Sent(c, panelId, PanelMessage)]
  }

  /** The store after `repost_panel`: the anchor key holds the new panel's id. */
  function PanelStore(kv: Store, c: nat, textChannels: set<nat>, panelId: nat): Store {
    if c !in textChannels then kv else kv[StoreKey(Panel, c) := Text(NatToString(panelId))]
  }

  /** `repost_panel` on a missing channel changes nothing; otherwise it sends exactly
      one panel, as its last event, deletes at most the previously anchored message
      (exactly when the anchor is a number and deleting succeeds), ends with the
      anchor reading the new id, and writes no other key. */
  lemma RepostPanelSpec(kv: Store, c: nat, textChannels: set<nat>, panelId: nat, deleteOk: bool)
    ensures c !in textChannels ==> PanelStore(kv, c, textChannels, panelId) == kv && PanelEvents(kv, c, textChannels, panelId, deleteOk) == []
    ensures c in textChannels ==>
      var ev := PanelEvents(kv, c, textChannels, panelId, deleteOk);
      && |ev| >= 1
      && ev[|ev| - 1] == Sent(c, panelId, PanelMessage)
      && (forall i :: 0 <= i < |ev| - 1 ==> ev[i] == Deleted(c, StoredNumber(kv, StoreKey(Panel, c)).value))
      && (|ev| == 2 <==> StoredNumber(kv, StoreKey(Panel, c)).Some? && deleteOk)
      && |ev| <= 2
    ensures c in textChannels ==> StoredNumber(PanelStore(kv, c, textChannels, panelId), StoreKey(Panel, c)) == Some(panelId)
    ensures forall k :: k != StoreKey(Panel, c) ==>
      (k in PanelStore(kv, c, textChannels, panelId) <==> k in kv) &&
      (k in kv ==> PanelStore(kv, c, textChannels, panelId)[k] == kv[k])
  {
    if c in textChannels {
      StoredNumberRoundTrip(kv, StoreKey(Panel, c), panelId);
    }
  }

  // -------------------------------------------------------------- store invariant

  /** What the board keeps true of the store: every post record sits under the post
      key of its own message, post keys hold only records, and the panel, counter
      and log-channel keys hold only decimal numbers. */
  ghost predicate StoreValid(kv: Store) {
    forall k :: k in kv ==>
      if k.family == Post then kv[k].Record? && kv[k].post.messageId == k.id
      else kv[k].Text? && IsAllDigits(kv[k].text)
  }

  lemma SetNumberKeepsValid(kv: Store, f: Family, id: nat, s: string)
    requires StoreValid(kv) && f != Post && IsAllDigits(s)
    ensures StoreValid(kv[StoreKey(f, id) := Text(s)])
  {
  }

  lemma SetRecordKeepsValid(kv: Store, r: PostRecord)
    requires StoreValid(kv)
    ensures StoreValid(kv[StoreKey(Post, r.messageId) := Record(r)])
  {
  }

  // ------------------------------------------------------------- submitting a post

  /** What the post modal carries: the board channel, the anonymous flag, who is
      submitting, the guild the interaction came from, and the two form fields. */
  datatype Submission = Submission(
    channel: nat,
    anonymous: bool,
    author: User,
    guildId: Option<nat>,
    rawContent: string,
    rawImg: string)

  /** The reply to a submission: the channel must resolve to a text channel and the
      stripped body must not be empty. */
  function SubmitOutcome(sub: Submission, textChannels: set<nat>): SubmitReply {
    if sub.channel !in textChannels then ChannelNotFound
    else if Strip(sub.rawContent) == "" then EmptyBody
    else Posted
  }

  /** The image a submission shows and records: the form field, else the first image
      URL of the stripped body, as `ChooseImage` decides. */
  function SubmitImage(sub: Submission): (image: Option<string>)
    ensures image.Some? ==> IsImageUrl(image.value)
  {
    ChooseImageOption(Strip(sub.rawContent), sub.rawImg)
  }

  /** The record stored for a published submission, given the store before it and the
      chosen image. */
  function PostedRecord(kv: Store, sub: Submission, image: Option<string>, postId: nat): PostRecord {
    SubmitRecord(sub.anonymous, sub.author, sub.guildId, sub.channel, postId,
                 ShownName(kv, sub.channel, sub.anonymous, sub.author), image)
  }

  /** The store after a submission whose chosen image is `image`. The counter is
      consumed before the body is checked, so an anonymous submission with an empty
      body still uses up a number. */
  function SubmitStore(kv: Store, sub: Submission, image: Option<string>, textChannels: set<nat>,
                       postId: nat, panelId: nat): Store {
    var c := sub.channel;
    if c !in textChannels then kv
    else
      var kv1 := NamedStore(kv, sub);
      if Strip(sub.rawContent) == "" then kv1
      else PanelStore(kv1[StoreKey(Post, postId) := Record(PostedRecord(kv, sub, image, postId))], c, textChannels, panelId)
  }

  /** The store once the author is named: the anonymous counter is consumed. */
  function NamedStore(kv: Store, sub: Submission): Store {
    if sub.anonymous then Consume(kv, sub.channel) else kv
  }

  /** The platform events of a submission: the post itself, the log card when a log
      channel is configured, then the reposted panel; nothing when it is rejected.
      The log channel and the panel anchor are read after the counter was written. */
  function SubmitEvents(kv: Store, sub: Submission, image: Option<string>, textChannels: set<nat>,
                        postId: nat, logMessageId: nat, panelId: nat, deleteOk: bool): seq<Event> {
    if SubmitOutcome(sub, textChannels) != Posted then []
    else
      var c := sub.channel;
      var content := Strip(sub.rawContent);
      var shown := ShownName(kv, c, sub.anonymous, sub.author);
      var kv1 := NamedStore(kv, sub);
      [Sent(c, postId, PostEmbed(content, shown, image))]
      + LogEvents(kv1, c, textChannels, logMessageId, LogEmbed(content, sub.anonymous, shown, sub.author.id, postId, image))
      + PanelEvents(kv1, c, textChannels, panelId, deleteOk)
  }

  /** A submission to a text channel advances that channel's counter exactly when it is
      anonymous, whether or not the body is then accepted; other counters never move. */
  lemma SubmitAdvancesCounter(kv: Store, sub: Submission, image: Option<string>, textChannels: set<nat>,
                              postId: nat, panelId: nat)
    ensures sub.channel in textChannels ==>
      CounterValue(SubmitStore(kv, sub, image, textChannels, postId, panelId), sub.channel)
        == CounterValue(kv, sub.channel) + (if sub.anonymous then 1 else 0)
    ensures forall d :: d != sub.channel ==>
      CounterValue(SubmitStore(kv, sub, image, textChannels, postId, panelId), d) == CounterValue(kv, d)
  {
    if sub.anonymous {
      ConsumeAdvancesCounter(kv, sub.channel);
    }
  }

  /** A submission whose stripped body is empty is rejected after the counter was
      consumed: it sends nothing and writes no key but its channel's counter, which
      still advances when the submission is anonymous. */
  lemma EmptyBodyConsumesNumber(kv: Store, sub: Submission, image: Option<string>, textChannels: set<nat>,
                                postId: nat, logMessageId: nat, panelId: nat, deleteOk: bool)
    requires SubmitOutcome(sub, textChannels) == EmptyBody
    ensures SubmitEvents(kv, sub, image, textChannels, postId, logMessageId, panelId, deleteOk) == []
    ensures
      var kv' := SubmitStore(kv, sub, image, textChannels, postId, panelId);
      && CounterValue(kv', sub.channel) == CounterValue(kv, sub.channel) + (if sub.anonymous then 1 else 0)
      && forall k :: k != StoreKey(Counter, sub.channel) ==> (k in kv' <==> k in kv) && (k in kv ==> kv'[k] == kv[k])
  {
    if sub.anonymous {
      ConsumeAdvancesCounter(kv, sub.channel);
    }
  }

  /** The number an anonymous post is shown under is the counter value it leaves
      stored, written in decimal. */
  lemma AnonymousNameIsCounter(kv: Store, c: nat, user: User)
    ensures Consume(kv, c)[StoreKey(Counter, c)] == Text(ShownName(kv, c, true, user))
    ensures ShownName(kv, c, true, user) == NatToString(CounterValue(Consume(kv, c), c))
  {
    ConsumeAdvancesCounter(kv, c);
  }

  /** A published submission leaves, under the key of its message, a record naming the
      true author and, for an anonymous post only, the number it was shown under; this
      is what `/board reveal` later reads. */
  lemma SubmitRecordsAuthor(kv: Store, sub: Submission, image: Option<string>, textChannels: set<nat>,
                            postId: nat, panelId: nat)
    requires SubmitOutcome(sub, textChannels) == Posted
    ensures
      var kv' := SubmitStore(kv, sub, image, textChannels, postId, panelId);
      && StoreKey(Post, postId) in kv'
      && kv'[StoreKey(Post, postId)].Record?
      && var p := kv'[StoreKey(Post, postId)].post;
      && p.messageId == postId && p.channelId == sub.channel
      && p.authorId == sub.author.id && p.authorName == sub.author.name && p.authorDisplay == sub.author.display
      && p.anonymous == sub.anonymous
      && (p.anonDisplay.Some? <==> sub.anonymous)
      && (sub.anonymous ==> p.anonDisplay == Some(NatToString(CounterValue(kv, sub.channel) + 1)))
      && p.imgUrl == image
  {
  }

  /** The events of a published submission start with the post in its own channel and
      end with the new panel there; no other event publishes a post. A rejected
      submission sends nothing. */
  lemma SubmitEventsShape(kv: Store, sub: Submission, image: Option<string>, textChannels: set<nat>,
                          postId: nat, logMessageId: nat, panelId: nat, deleteOk: bool)
    ensures SubmitOutcome(sub, textChannels) != Posted ==>
      SubmitEvents(kv, sub, image, textChannels, postId, logMessageId, panelId, deleteOk) == []
    ensures SubmitOutcome(sub, textChannels) == Posted ==>
      var ev := SubmitEvents(kv, sub, image, textChannels, postId, logMessageId, panelId, deleteOk);
      && 2 <= |ev| <= 4
      && ev[0] == Sent(sub.channel, postId, PostEmbed(Strip(sub.rawContent), ShownName(kv, sub.channel, sub.anonymous, sub.author), image))
      && ev[|ev| - 1] == Sent(sub.channel, panelId, PanelMessage)
      && (forall i :: 0 < i < |ev| ==> !(ev[i].Sent? && ev[i].message.PostEmbed?))
  {
    if SubmitOutcome(sub, textChannels) == Posted {
      var ev := SubmitEvents(kv, sub, image, textChannels, postId, logMessageId, panelId, deleteOk);
      SubmitEventsMiddle(kv, sub, image, textChannels, postId, logMessageId, panelId, deleteOk);
      RepostPanelSpec(NamedStore(kv, sub), sub.channel, textChannels, panelId, deleteOk);
      forall i | 0 < i < |ev| ensures !(ev[i].Sent? && ev[i].message.PostEmbed?) {
        if i == |ev| - 1 {
          assert ev[i].message == PanelMessage;
        }
      }
    }
  }

  /** Between the post and the new panel of a published submission come, in this
      order, at most the log card (sent to the configured log channel, naming the
      post and its true author) and at most the deletion of the old panel, the one
      anchored once the counter was written. */
  lemma SubmitEventsMiddle(kv: Store, sub: Submission, image: Option<string>, textChannels: set<nat>,
                           postId: nat, logMessageId: nat, panelId: nat, deleteOk: bool)
    requires SubmitOutcome(sub, textChannels) == Posted
    ensures
      var ev := SubmitEvents(kv, sub, image, textChannels, postId, logMessageId, panelId, deleteOk);
      var kv1 := NamedStore(kv, sub);
      && 2 <= |ev| <= 4
      && (forall i :: 0 < i < |ev| - 1 ==> (ev[i].Sent? && ev[i].message.LogEmbed?) || ev[i].Deleted?)
      && (forall i :: 0 < i < |ev| - 1 && ev[i].Deleted? ==>
            ev[i] == Deleted(sub.channel, StoredNumber(kv1, StoreKey(Panel, sub.channel)).value))
      && (forall i :: 0 < i < |ev| - 1 && ev[i].Sent? ==>
            && ev[i].channel == LogDestination(kv1, sub.channel, textChannels).value
            && ev[i].message.postId == postId && ev[i].message.authorId == sub.author.id)
      && (forall i, j :: 0 < i < j < |ev| - 1 ==> ev[i].Sent? && ev[j].Deleted?)
  {
    var c := sub.channel;
    var content := Strip(sub.rawContent);
    var shown := ShownName(kv, c, sub.anonymous, sub.author);
    var kv1 := NamedStore(kv, sub);
    var card := LogEvents(kv1, c, textChannels, logMessageId, LogEmbed(content, sub.anonymous, shown, sub.author.id, postId, image));
    var panel := PanelEvents(kv1, c, textChannels, panelId, deleteOk);
    var ev := SubmitEvents(kv, sub, image, textChannels, postId, logMessageId, panelId, deleteOk);
    RepostPanelSpec(kv1, c, textChannels, panelId, deleteOk);
    assert ev == [Sent(c, postId, PostEmbed(content, shown, image))] + card + panel;
    assert |card| <= 1;
    forall i | 0 < i <= |card| ensures ev[i] == card[i - 1] && ev[i].Sent? && ev[i].message.LogEmbed? {
    }
    forall i | |card| < i < |ev| ensures ev[i] == panel[i - 1 - |card|] {
    }
  }

  /** The public post of an anonymous submission does not depend on who wrote it: two
      authors submitting the same form against the same store publish the same post. */
  lemma AnonymousPostHidesAuthor(kv: Store, sub: Submission, other: User, image: Option<string>,
                                 textChannels: set<nat>, postId: nat, logMessageId: nat, panelId: nat, deleteOk: bool)
    requires sub.anonymous && SubmitOutcome(sub, textChannels) == Posted
    ensures
      var ev := SubmitEvents(kv, sub, image, textChannels, postId, logMessageId, panelId, deleteOk);
      var ev' := SubmitEvents(kv, sub.(author := other), image, textChannels, postId, logMessageId, panelId, deleteOk);
      && |ev| > 0 && |ev'| > 0 && ev[0] == ev'[0]
      && ev[0].message.shownAs == NatToString(CounterValue(kv, sub.channel) + 1)
  {
  }

  /** Submitting keeps the store invariant. */
  lemma SubmitKeepsValid(kv: Store, sub: Submission, image: Option<string>, textChannels: set<nat>,
                         postId: nat, panelId: nat)
    requires StoreValid(kv)
    ensures StoreValid(SubmitStore(kv, sub, image, textChannels, postId, panelId))
  {
    var c := sub.channel;
    if c in textChannels {
      var kv1 := if sub.anonymous then Consume(kv, c) else kv;
      if sub.anonymous {
        SetNumberKeepsValid(kv, Counter, c, NatToString(CounterValue(kv, c) + 1));
      }
      if Strip(sub.rawContent) != "" {
        var r := PostedRecord(kv, sub, image, postId);
        SetRecordKeepsValid(kv1, r);
        SetNumberKeepsValid(kv1[StoreKey(Post, postId) := Record(r)], Panel, c, NatToString(panelId));
      }
    }
  }

  /** A published submission, step by step: the named store gets the record and then
      the panel; the events are the post, the log card and the panel events, read
      from the named store. */
  lemma PublishUnfolds(kv: Store, sub: Submission, image: Option<string>, textChannels: set<nat>,
                       postId: nat, logMessageId: nat, panelId: nat, deleteOk: bool, log0: seq<Event>)
    requires SubmitOutcome(sub, textChannels) == Posted
    ensures
      var c := sub.channel;
      var content := Strip(sub.rawContent);
      var shown := ShownName(kv, c, sub.anonymous, sub.author);
      var kv1 := NamedStore(kv, sub);
      var info := SubmitRecord(sub.anonymous, sub.author, sub.guildId, c, postId, shown, image);
      && SubmitStore(kv, sub, image, textChannels, postId, panelId)
           == PanelStore(kv1[StoreKey(Post, postId) := Record(info)], c, textChannels, panelId)
      && log0 + SubmitEvents(kv, sub, image, textChannels, postId, logMessageId, panelId, deleteOk)
           == log0 + [Sent(c, postId, PostEmbed(content, shown, image))]
              + LogEvents(kv1, c, textChannels, logMessageId, LogEmbed(content, sub.anonymous, shown, sub.author.id, postId, image))
              + PanelEvents(kv1, c, textChannels, panelId, deleteOk)
  {
    var c := sub.channel;
    var content := Strip(sub.rawContent);
    var shown := ShownName(kv, c, sub.anonymous, sub.author);
    var kv1 := NamedStore(kv, sub);
    var post := [Sent(c, postId, PostEmbed(content, shown, image))];
    var card := LogEvents(kv1, c, textChannels, logMessageId, LogEmbed(content, sub.anonymous, shown, sub.author.id, postId, image));
    var panel := PanelEvents(kv1, c, textChannels, panelId, deleteOk);
    assert SubmitEvents(kv, sub, image, textChannels, postId, logMessageId, panelId, deleteOk) == post + card + panel;
    assert log0 + (post + card + panel) == log0 + post + card + panel;
  }

  // -------------------------------------------------------------------- the cog

  class AnonBoard {
    /** The key-value store (`kv_get` is a lookup, `kv_set` a map update). */
    var kv: Store
    /** Messages sent and deleted on the platform, in order. */
    var log: seq<Event>

    constructor ()
      ensures kv == map[] && log == []
      ensures Valid()
    {
      kv := map[];
      log := [];
    }

    ghost predicate Valid()
      reads this
    {
      StoreValid(kv)
    }

    /** `repost_panel`: delete the anchored panel (best effort), send a new one, anchor it. */
    method RepostPanel(c: nat, textChannels: set<nat>, panelId: nat, deleteOk: bool)
      modifies this
      ensures kv == PanelStore(old(kv), c, textChannels, panelId)
      ensures log == old(log) + PanelEvents(old(kv), c, textChannels, panelId, deleteOk)
      ensures old(Valid()) ==> Valid()
    {
      var anchor := StoredNumber(kv, StoreKey(Panel, c));
      if c !in textChannels {
        return;
      }
      if anchor.Some? && deleteOk {
        log := log + [Deleted(c, anchor.value)];
      }
      log := log + [Sent(c, panelId, PanelMessage)];
      if Valid() {
        SetNumberKeepsValid(kv, Panel, c, NatToString(panelId));
      }
      kv := kv[StoreKey(Panel, c) := Text(NatToString(panelId))];
    }

    /** `PostModal.on_submit`: number or name the author, validate the body, choose
        the image, publish, record the post, copy it to the log channel, repost the panel. */
    method OnSubmit(sub: Submission, textChannels: set<nat>, postId: nat, logMessageId: nat, panelId: nat, deleteOk: bool)
      returns (reply: SubmitReply)
      modifies this
      ensures reply == SubmitOutcome(sub, textChannels)
      ensures kv == SubmitStore(old(kv), sub, SubmitImage(sub), textChannels, postId, panelId)
      ensures log == old(log) + SubmitEvents(old(kv), sub, SubmitImage(sub), textChannels, postId, logMessageId, panelId, deleteOk)
      ensures old(Valid()) ==> Valid()
    {
      ghost var kv0 := kv;
      ghost var wasValid := Valid();
      var c := sub.channel;
      if c !in textChannels {
        reply := ChannelNotFound;
        return;
      }
      var shown := NameAuthor(c, sub.anonymous, sub.author);
      var content := Strip(sub.rawContent);
      if content == "" {
        reply := EmptyBody;
      } else {
        var image := ChooseImageOption(content, sub.rawImg);
        ghost var log0 := log;
        PublishUnfolds(kv0, sub, image, textChannels, postId, logMessageId, panelId, deleteOk, log0);
        Publish(sub, content, shown, image, textChannels, postId, logMessageId, panelId, deleteOk);
        reply := Posted;
      }
      if wasValid {
        SubmitKeepsValid(kv0, sub, SubmitImage(sub), textChannels, postId, panelId);
      }
    }

    /** The naming step of `on_submit`: for an anonymous post, read the counter (0 when
        absent or not a number), add one, store it and show that number; otherwise show
        the author's display name. */
    method NameAuthor(c: nat, anonymous: bool, user: User) returns (shown: string)
      modifies this
      ensures shown == ShownName(old(kv), c, anonymous, user)
      ensures kv == if anonymous then Consume(old(kv), c) else old(kv)
      ensures log == old(log)
    {
      if anonymous {
        var counter := CounterValue(kv, c);
        counter := counter + 1;
        kv := kv[StoreKey(Counter, c) := Text(NatToString(counter))];
        shown := NatToString(counter);
      } else {
        shown := user.display;
      }
    }

    /** The publishing steps of `on_submit` for a non-empty body: send the post, record
        it under its message id, send the log card when a log channel is configured,
        then repost the panel. */
    method Publish(sub: Submission, content: string, shown: string, image: Option<string>,
                   textChannels: set<nat>, postId: nat, logMessageId: nat, panelId: nat, deleteOk: bool)
      modifies this
      ensures
        var c := sub.channel;
        var info := SubmitRecord(sub.anonymous, sub.author, sub.guildId, c, postId, shown, image);
        && kv == PanelStore(old(kv)[StoreKey(Post, postId) := Record(info)], c, textChannels, panelId)
        && log == old(log) + [Sent(c, postId, PostEmbed(content, shown, image))]
                  + LogEvents(old(kv), c, textChannels, logMessageId, LogEmbed(content, sub.anonymous, shown, sub.author.id, postId, image))
                  + PanelEvents(old(kv), c, textChannels, panelId, deleteOk)
    {
      var c := sub.channel;
      log := log + [Sent(c, postId, PostEmbed(content, shown, image))];
      var info := SubmitRecord(sub.anonymous, sub.author, sub.guildId, c, postId, shown, image);
      kv := kv[StoreKey(Post, postId) := Record(info)];
      var dest := LogDestination(kv, c, textChannels);
      if dest.Some? {
        log := log + [Sent(dest.value, logMessageId, LogEmbed(content, sub.anonymous, shown, sub.author.id, postId, image))];
      }
      RepostPanel(c, textChannels, panelId, deleteOk);
    }

    /** `/board setup`: optionally reset the counter and set the log channel, then repost the panel. */
    method SetupBoard(perms: Permissions, target: Option<nat>, resetCounter: bool, logChannel: Option<nat>,
                      textChannels: set<nat>, panelId: nat, deleteOk: bool)
      returns (reply: CommandReply)
      modifies this
      ensures !CanManageChannels(perms) ==> reply == NoPermission && kv == old(kv) && log == old(log)
      ensures CanManageChannels(perms) && target.None? ==> reply == NotTextChannel && kv == old(kv) && log == old(log)
      ensures CanManageChannels(perms) && target.Some? ==>
        var t := target.value;
        var kv1 := if resetCounter then old(kv)[StoreKey(Counter, t) := Text("0")] else old(kv);
        var kv2 := if logChannel.Some? then kv1[StoreKey(LogChannel, t) := Text(NatToString(logChannel.value))] else kv1;
        && reply == BoardSetUp(t, logChannel, resetCounter)
        && kv == PanelStore(kv2, t, textChannels, panelId)
        && log == old(log) + PanelEvents(old(kv), t, textChannels, panelId, deleteOk)
      ensures old(Valid()) ==> Valid()
    {
      if !CanManageChannels(perms) {
        return NoPermission;
      }
      if target.None? {
        return NotTextChannel;
      }
      var t := target.value;
      ghost var kv0 := kv;
      ghost var wasValid := Valid();
      if resetCounter {
        if wasValid {
          SetNumberKeepsValid(kv, Counter, t, "0");
        }
        kv := kv[StoreKey(Counter, t) := Text("0")];
      }
      if logChannel.Some? {
        if Valid() {
          SetNumberKeepsValid(kv, LogChannel, t, NatToString(logChannel.value));
        }
        kv := kv[StoreKey(LogChannel, t) := Text(NatToString(logChannel.value))];
      }
      assert PanelEvents(kv, t, textChannels, panelId, deleteOk) == PanelEvents(kv0, t, textChannels, panelId, deleteOk);
      RepostPanel(t, textChannels, panelId, deleteOk);
      reply := BoardSetUp(t, logChannel, resetCounter);
    }

    /** `/board setlog`: point board channel `target` at a log channel. */
    method SetLog(perms: Permissions, target: Option<nat>, logChannel: Option<nat>) returns (reply: CommandReply)
      modifies this
      ensures !CanManageGuild(perms) ==> reply == NoPermission && kv == old(kv)
      ensures CanManageGuild(perms) && (target.None? || logChannel.None?) ==> reply == BadChannels && kv == old(kv)
      ensures CanManageGuild(perms) && target.Some? && logChannel.Some? ==>
        reply == LogChannelSet(target.value, logChannel.value) &&
        kv == old(kv)[StoreKey(LogChannel, target.value) := Text(NatToString(logChannel.value))]
      ensures log == old(log)
      ensures old(Valid()) ==> Valid()
    {
      if !CanManageGuild(perms) {
        return NoPermission;
      }
      if target.None? || logChannel.None? {
        return BadChannels;
      }
      if Valid() {
        SetNumberKeepsValid(kv, LogChannel, target.value, NatToString(logChannel.value));
      }
      kv := kv[StoreKey(LogChannel, target.value) := Text(NatToString(logChannel.value))];
      reply := LogChannelSet(target.value, logChannel.value);
    }

    /** `/board reset_counter`: the counter of `target` is set to "0". */
    method ResetCounter(perms: Permissions, target: Option<nat>) returns (reply: CommandReply)
      modifies this
      ensures !CanManageChannels(perms) ==> reply == NoPermission && kv == old(kv)
      ensures CanManageChannels(perms) && target.None? ==> reply == NotTextChannel && kv == old(kv)
      ensures CanManageChannels(perms) && target.Some? ==>
        reply == CounterReset(target.value) && kv == old(kv)[StoreKey(Counter, target.value) := Text("0")]
      ensures log == old(log)
      ensures old(Valid()) ==> Valid()
    {
      if !CanManageChannels(perms) {
        return NoPermission;
      }
      if target.None? {
        return NotTextChannel;
      }
      if Valid() {
        SetNumberKeepsValid(kv, Counter, target.value, "0");
      }
      kv := kv[StoreKey(Counter, target.value) := Text("0")];
      reply := CounterReset(target.value);
    }

    /** `/board panel`: repost the panel by hand. */
    method RefreshPanel(perms: Permissions, target: Option<nat>, textChannels: set<nat>, panelId: nat, deleteOk: bool)
      returns (reply: CommandReply)
      modifies this
      ensures !CanManageChannels(perms) ==> reply == NoPermission && kv == old(kv) && log == old(log)
      ensures CanManageChannels(perms) && target.None? ==> reply == NotTextChannel && kv == old(kv) && log == old(log)
      ensures CanManageChannels(perms) && target.Some? ==>
        && reply == PanelReposted(target.value)
        && kv == PanelStore(old(kv), target.value, textChannels, panelId)
        && log == old(log) + PanelEvents(old(kv), target.value, textChannels, panelId, deleteOk)
      ensures old(Valid()) ==> Valid()
    {
      if !CanManageChannels(perms) {
        return NoPermission;
      }
      if target.None? {
        return NotTextChannel;
      }
      RepostPanel(target.value, textChannels, panelId, deleteOk);
      reply := PanelReposted(target.value);
    }

    /** `/board reveal`: for an allow-listed caller, the true author of a recorded post,
        whether or not it was anonymous. */
    method Reveal(caller: nat, messageId: nat) returns (r: RevealReply)
      ensures caller !in AllowedUserIds ==> r == NotAllowed
      ensures caller in AllowedUserIds && (StoreKey(Post, messageId) !in kv || kv[StoreKey(Post, messageId)] == Text("")) ==>
        r == NotRecorded
      ensures caller in AllowedUserIds && StoreKey(Post, messageId) in kv && kv[StoreKey(Post, messageId)].Record? ==>
        var p := kv[StoreKey(Post, messageId)].post;
        r == Revealed(p.anonymous, p.anonDisplay, p.authorId, p.authorName, p.authorDisplay)
      ensures r.Unreadable? <==> caller in AllowedUserIds && StoreKey(Post, messageId) in kv &&
                                 kv[StoreKey(Post, messageId)].Text? && kv[StoreKey(Post, messageId)].text != ""
      ensures Valid() && caller in AllowedUserIds ==>
        (r.NotRecorded? <==> StoreKey(Post, messageId) !in kv) && !r.Unreadable?
    {
      if caller !in AllowedUserIds {
        return NotAllowed;
      }
      var key := StoreKey(Post, messageId);
      if key !in kv || kv[key] == Text("") {
        return NotRecorded;
      }
      match kv[key]
      case Text(_) =>
        r := Unreadable;
      case Record(p) =>
        r := Revealed(p.anonymous, p.anonDisplay, p.authorId, p.authorName, p.authorDisplay);
    }
  }
}
