/** The automatic status-story viewer (features/autostory.go): the emoji
    and delay choices, the masking of a phone number for display, the
    "deleted story" test, the per-story cooldown gate and the bounded
    cleanup of the gate's memory. */
module AutoStory {
  import opened Wrappers
  import opened Text
  import opened Clock
  import LidResolver

  /** A story seen again within this time is ignored. */
  const StoryCooldown: Millis := 3 * Second

  /** The cleanup drops entries older than this. */
  const StoryMaxAge: Millis := 5 * Minute

  /** The gate's memory is only cleaned up above this many entries. */
  const StoryCacheLimit := 1000

  /** The reactions to choose from; the same target emoji appears twice
      (positions 32 and 87). */
  const StoryEmojis: seq<string> := [
    "\U{1F525}", "\U{1F44D}", "\U{1F602}", "\U{1F389}", "\U{1F4AF}",
    "\U{26A1}", "\U{2728}", "\U{1F64F}", "\U{1F44F}", "\U{1F4AA}",
    "\U{1F929}", "\U{1F60E}", "\U{1F919}", "\U{1F31F}", "\U{1F680}",
    "\U{1F5FF}", "\U{1F973}", "\U{1F60A}", "\U{1F917}", "\U{1F61C}",
    "\U{1F308}", "\U{1F338}", "\U{1F33A}", "\U{1F33B}", "\U{1F339}",
    "\U{1F337}", "\U{1F340}", "\U{1F38A}", "\U{1F388}", "\U{1F381}",
    "\U{1F3C6}", "\U{1F947}", "\U{1F3AF}", "\U{1F48E}", "\U{1F451}",
    "\U{1F52E}", "\U{1F3B5}", "\U{1F3B6}", "\U{1F3A4}", "\U{1F3A7}",
    "\U{1F4F8}", "\U{1F3AC}", "\U{1F319}", "\U{2B50}", "\U{1F320}",
    "\U{2600}\U{FE0F}", "\U{1F30A}", "\U{1F3DD}\U{FE0F}", "\U{1F98B}", "\U{1F41D}",
    "\U{1F984}", "\U{1F42C}", "\U{1F985}", "\U{1F981}", "\U{1F42F}",
    "\U{1F98A}", "\U{1F43B}", "\U{1F43C}", "\U{1F428}", "\U{1F430}",
    "\U{1F355}", "\U{1F354}", "\U{1F35F}", "\U{1F369}", "\U{1F36A}",
    "\U{1F36B}", "\U{1F370}", "\U{1F382}", "\U{1F37F}", "\U{2615}",
    "\U{1F942}", "\U{1F37E}", "\U{1F377}", "\U{1F964}", "\U{1F9CB}",
    "\U{1F349}", "\U{1F353}", "\U{1F351}", "\U{1F352}", "\U{1F951}",
    "\U{1F3B8}", "\U{1F3B9}", "\U{1F3BA}", "\U{1F3BB}", "\U{1F941}",
    "\U{1F3B2}", "\U{1F3AE}", "\U{1F3AF}", "\U{1F3AA}", "\U{1F3AD}",
    "\U{1F697}", "\U{1F695}", "\U{1F699}", "\U{1F68C}", "\U{1F68E}",
    "\U{1F3CE}\U{FE0F}", "\U{1F693}", "\U{1F691}", "\U{1F692}", "\U{2708}\U{FE0F}"
  ]

  /** getRandomEmoji: `rnd` stands for `rand.Intn(len(storyEmojis))`. */
  function RandomEmoji(rnd: nat): (e: string)
    requires rnd < |StoryEmojis|
    ensures e in StoryEmojis
  {
    StoryEmojis[rnd]
  }

  /** getStoryDelay, in seconds: `rnd` stands for `rand.Intn(20)`. */
  function StoryDelaySeconds(randomDelay: bool, rnd: nat): (d: nat)
    requires rnd < 20
    ensures 1 <= d <= 20
    ensures !randomDelay ==> d == 1
  {
    if randomDelay then rnd + 1 else 1
  }

  /** With random delay on, every delay from 1 to 20 seconds can occur,
      each for exactly one random draw. */
  lemma StoryDelayCoversRange(d: nat, rnd: nat)
    requires 1 <= d <= 20 && rnd < 20
    ensures StoryDelaySeconds(true, rnd) == d <==> rnd == d - 1
  {
  }

  /** formatPhoneNumber: a number longer than 8 characters shows only its
      first 4 and last 3 characters around four asterisks. */
  function FormatPhoneNumber(number: string): (r: string)
    ensures |number| <= 8 ==> r == number
    ensures |number| > 8 ==> |r| == 11 && r[..4] == number[..4] && r[4..8] == "****" && r[8..] == number[|number| - 3..]
  {
    if |number| > 8 then number[..4] + "****" + number[|number| - 3..] else number
  }

  /** The masked form depends only on the visible characters: numbers that
      share their first 4 and last 3 characters look the same. */
  lemma FormatPhoneNumberHidesMiddle(a: string, b: string)
    requires |a| > 8 && |b| > 8
    requires a[..4] == b[..4] && a[|a| - 3..] == b[|b| - 3..]
    ensures FormatPhoneNumber(a) == FormatPhoneNumber(b)
  {
    var fa := FormatPhoneNumber(a);
    var fb := FormatPhoneNumber(b);
    assert fa == fa[..4] + fa[4..8] + fa[8..];
    assert fb == fb[..4] + fb[4..8] + fb[8..];
  }

  /** The kinds of content a message can carry; only the first six count
      as story media. */
  datatype MediaKind = Image | Video | ExtendedText | Audio | Document | Sticker | OtherKind

  predicate IsStoryMedia(k: MediaKind) {
    !k.OtherKind?
  }

  /** isStoryDeleted: `content` is the set of populated fields of the
      message, `None` when the message itself is absent. */
  function IsStoryDeleted(content: Option<set<MediaKind>>): (deleted: bool)
    ensures deleted <==> content.None? || forall k :: k in content.value ==> !IsStoryMedia(k)
  {
    content.None? || !(Image in content.value || Video in content.value || ExtendedText in content.value
                       || Audio in content.value || Document in content.value || Sticker in content.value)
  }

  /** The gate's memory: story key to the time it was last let through. */
  type Seen = map<string, Millis>

  /** The dedup gate: a story proceeds iff its key is new or was last let
      through at least the cooldown ago; proceeding records `now`. */
  function Gate(seen: Seen, key: string, now: Millis): (r: (bool, Seen))
    ensures r.0 <==> key !in seen || now - seen[key] >= StoryCooldown
    ensures r.0 ==> r.1 == seen[key := now]
    ensures !r.0 ==> r.1 == seen
  {
    if key in seen && now - seen[key] < StoryCooldown then (false, seen) else (true, seen[key := now])
  }

  /** The entries of `seen` no older than the maximum age. */
  function Recent(seen: Seen, now: Millis): Seen {
    map k | k in seen && now - seen[k] <= StoryMaxAge :: seen[k]
  }

  /** cleanupOldStories: nothing happens up to the limit; above it, old
      entries are dropped, and if that is not enough everything is. */
  function CleanupOldStories(seen: Seen, now: Millis): (r: Seen)
    ensures |seen| <= StoryCacheLimit ==> r == seen
    ensures |r| <= StoryCacheLimit
    ensures forall k :: k in r ==> k in seen && r[k] == seen[k]
    ensures |seen| > StoryCacheLimit ==> forall k :: k in r ==> now - seen[k] <= StoryMaxAge
    ensures |seen| > StoryCacheLimit && r != map[] ==>
      forall k :: k in seen && now - seen[k] <= StoryMaxAge ==> k in r
    ensures |seen| > StoryCacheLimit && |Recent(seen, now)| <= StoryCacheLimit ==> r == Recent(seen, now)
    ensures |seen| > StoryCacheLimit && |Recent(seen, now)| > StoryCacheLimit ==> r == map[]
  {
    if |seen| <= StoryCacheLimit then seen
    else
      var recent := Recent(seen, now);
      if |recent| > StoryCacheLimit then map[] else recent
  }

  /** Cleaning up twice at the same time is cleaning up once. */
  lemma CleanupIdempotent(seen: Seen, now: Millis)
    ensures CleanupOldStories(CleanupOldStories(seen, now), now) == CleanupOldStories(seen, now)
  {
  }

  /** A status message as the handler sees it. */
  datatype StoryMessage = StoryMessage(
    id: string,
    fromStatusBroadcast: bool,
    content: Option<set<MediaKind>>,
    sender: LidResolver.Jid)

  datatype SkipReason = FeaturesOff | NotStatus | Deleted | FromSelf | Cooldown

  datatype StoryOutcome = Skipped(reason: SkipReason) | Accepted(phone: string, key: string)

  datatype StoryStep = StoryStep(outcome: StoryOutcome, seen: Seen)

  /** The phone number carried by the resolved sender JID: the user part
      before any device suffix when `senderId` is a phone JID that parses,
      else "". */
  function ResolvedPhone(senderId: string, parseUser: string -> Option<string>): string {
    if LidResolver.IsPNUser(senderId) && parseUser(senderId).Some?
    then LidResolver.ExtractPhoneFromJID(parseUser(senderId).value) else ""
  }

  /** The phone number a story is filed under: the sender's user part
      before any device suffix, else the user part of the resolved phone
      JID (`senderId`, when it is one), else the raw user part. */
  function StoryPhone(sender: LidResolver.Jid, senderId: string, parseUser: string -> Option<string>): (phone: string)
    ensures LidResolver.ExtractPhoneFromJID(sender.user) != "" ==> phone == LidResolver.ExtractPhoneFromJID(sender.user)
    ensures phone == "" ==> sender.user == ""
    ensures LidResolver.ExtractPhoneFromJID(sender.user) == "" && ResolvedPhone(senderId, parseUser) != "" ==>
      phone == ResolvedPhone(senderId, parseUser)
    ensures LidResolver.ExtractPhoneFromJID(sender.user) == "" && ResolvedPhone(senderId, parseUser) == "" ==>
      phone == sender.user
  {
    var direct := LidResolver.ExtractPhoneFromJID(sender.user);
    var viaId :=
      if direct == "" && LidResolver.IsPNUser(senderId) && parseUser(senderId).Some?
      then LidResolver.ExtractPhoneFromJID(parseUser(senderId).value) else direct;
    if viaId == "" then sender.user else viaId
  }

  function StoryKey(id: string, phone: string): string {
    id + "_" + phone
  }

  /** HandleStoryMessage up to the hand-off to the viewer: the gates in the
      source's order, then the cooldown gate, then the cleanup (which the
      source starts in the background; here it runs at the same instant).
      `bot` is the bot's own JID; `senderId` the resolved sender JID. */
  function HandleStoryMessage(
    autoRead: bool, autoLike: bool, seen: Seen, msg: StoryMessage,
    cache: LidResolver.Cache, bot: LidResolver.Jid, senderId: string,
    parseUser: string -> Option<string>, now: Millis): (st: StoryStep)
    ensures !autoRead && !autoLike ==> st == StoryStep(Skipped(FeaturesOff), seen)
    ensures st.outcome.Skipped? ==> st.seen == seen
    ensures st.outcome.Skipped? && st.outcome.reason == Cooldown ==>
      var key := StoryKey(msg.id, StoryPhone(msg.sender, senderId, parseUser));
      key in seen && now - seen[key] < StoryCooldown
    ensures st.outcome.Accepted? ==>
      && (autoRead || autoLike)
      && msg.fromStatusBroadcast
      && !IsStoryDeleted(msg.content)
      && msg.sender.user != bot.user
      && st.outcome.key == StoryKey(msg.id, st.outcome.phone)
      && (st.outcome.key !in seen || now - seen[st.outcome.key] >= StoryCooldown)
      && ((st.outcome.key in st.seen && st.seen[st.outcome.key] == now) || st.seen == map[])
    ensures var key := StoryKey(msg.id, StoryPhone(msg.sender, senderId, parseUser));
      st.outcome.Accepted? <==>
        && (autoRead || autoLike)
        && msg.fromStatusBroadcast
        && !IsStoryDeleted(msg.content)
        && !LidResolver.IsSelfMessage(cache, msg.sender, Some(bot), parseUser)
        && (key !in seen || now - seen[key] >= StoryCooldown)
    ensures st.outcome.Accepted? ==>
      && st.outcome.phone == StoryPhone(msg.sender, senderId, parseUser)
      && st.seen == CleanupOldStories(seen[st.outcome.key := now], now)
  {
    if !autoRead && !autoLike then StoryStep(Skipped(FeaturesOff), seen)
    else if !msg.fromStatusBroadcast then StoryStep(Skipped(NotStatus), seen)
    else if IsStoryDeleted(msg.content) then StoryStep(Skipped(Deleted), seen)
    else if LidResolver.IsSelfMessage(cache, msg.sender, Some(bot), parseUser) || msg.sender.user == bot.user then
      StoryStep(Skipped(FromSelf), seen)
    else
      var phone := StoryPhone(msg.sender, senderId, parseUser);
      var key := StoryKey(msg.id, phone);
      var (proceed, recorded) := Gate(seen, key, now);
      if !proceed then StoryStep(Skipped(Cooldown), seen)
      else StoryStep(Accepted(phone, key), CleanupOldStories(recorded, now))
  }

  /** Once a story has been let through, the same story arriving again
      within the cooldown is ignored, as long as the gate's memory was not
      full enough to be cleaned up. */
  lemma RepeatWithinCooldownIsIgnored(
    autoRead: bool, autoLike: bool, seen: Seen, msg: StoryMessage,
    cache: LidResolver.Cache, bot: LidResolver.Jid, senderId: string,
    parseUser: string -> Option<string>, now: Millis, later: Millis)
    requires |seen| < StoryCacheLimit
    requires now <= later < now + StoryCooldown
    requires HandleStoryMessage(autoRead, autoLike, seen, msg, cache, bot, senderId, parseUser, now).outcome.Accepted?
    ensures
      var first := HandleStoryMessage(autoRead, autoLike, seen, msg, cache, bot, senderId, parseUser, now);
      HandleStoryMessage(autoRead, autoLike, first.seen, msg, cache, bot, senderId, parseUser, later).outcome
        == Skipped(Cooldown)
  {
    var key := StoryKey(msg.id, StoryPhone(msg.sender, senderId, parseUser));
    var recorded := seen[key := now];
    assert |recorded| <= |seen| + 1 by {
      if key in seen {
        assert recorded.Keys == seen.Keys;
      } else {
        assert recorded.Keys == seen.Keys + {key};
      }
    }
  }
}
