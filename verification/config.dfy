/** The bot's feature switches (core/config.go): six booleans with fixed
    defaults, a partial update where a nil argument means "keep", the merge
    of the saved settings file at start-up, and the setter hooks that push
    the new values to the features. */
module Config {
  import opened Wrappers

  datatype BotConfig = BotConfig(
    autoOnline: bool,
    autoTyping: bool,
    autoRecording: bool,
    autoReadStory: bool,
    autoLikeStory: bool,
    storyRandomDelay: bool)

  /** The configuration before any settings file is read. */
  const Defaults := BotConfig(
    autoOnline := true,
    autoTyping := false,
    autoRecording := false,
    autoReadStory := true,
    autoLikeStory := true,
    storyRandomDelay := true)

  datatype Field = AutoOnline | AutoTyping | AutoRecording | AutoReadStory | AutoLikeStory | StoryRandomDelay

  /** The order in which the source handles the fields. */
  function Rank(f: Field): nat {
    match f
    case AutoOnline => 0
    case AutoTyping => 1
    case AutoRecording => 2
    case AutoReadStory => 3
    case AutoLikeStory => 4
    case StoryRandomDelay => 5
  }

  function Get(c: BotConfig, f: Field): bool {
    match f
    case AutoOnline => c.autoOnline
    case AutoTyping => c.autoTyping
    case AutoRecording => c.autoRecording
    case AutoReadStory => c.autoReadStory
    case AutoLikeStory => c.autoLikeStory
    case StoryRandomDelay => c.storyRandomDelay
  }

  /** The key of each field in the saved settings file. */
  function JsonKey(f: Field): string {
    match f
    case AutoOnline => "auto_online"
    case AutoTyping => "auto_typing"
    case AutoRecording => "auto_recording"
    case AutoReadStory => "auto_read_story"
    case AutoLikeStory => "auto_like_story"
    case StoryRandomDelay => "story_random_delay"
  }

  /** Only the auto-online, auto-read-story, auto-like-story and random-delay
      switches start enabled. */
  lemma DefaultsAsDocumented(f: Field)
    ensures Get(Defaults, f) <==> f in {AutoOnline, AutoReadStory, AutoLikeStory, StoryRandomDelay}
  {
  }

  /** The six `*bool` arguments of UpdateConfig; `None` is nil. */
  datatype Patch = Patch(
    autoOnline: Option<bool>,
    autoTyping: Option<bool>,
    autoRecording: Option<bool>,
    autoReadStory: Option<bool>,
    autoLikeStory: Option<bool>,
    storyRandomDelay: Option<bool>)

  const EmptyPatch := Patch(None, None, None, None, None, None)

  function PatchGet(p: Patch, f: Field): Option<bool> {
    match f
    case AutoOnline => p.autoOnline
    case AutoTyping => p.autoTyping
    case AutoRecording => p.autoRecording
    case AutoReadStory => p.autoReadStory
    case AutoLikeStory => p.autoLikeStory
    case StoryRandomDelay => p.storyRandomDelay
  }

  /** One invocation of a feature's setter hook with the value it was given. */
  datatype HookCall = HookCall(field: Field, value: bool)

  /** The configuration after an operation and the setter hooks it invoked,
      in order. */
  datatype Applied = Applied(config: BotConfig, hookCalls: seq<HookCall>)

  /** Hook calls listed in the source's field order, one per field at most. */
  predicate InFieldOrder(calls: seq<HookCall>) {
    forall i, j :: 0 <= i < j < |calls| ==> Rank(calls[i].field) < Rank(calls[j].field)
  }

  /** The fields that have a setter hook, in the source's order. */
  const HookedFields: seq<Field> := [AutoTyping, AutoRecording, AutoReadStory, AutoLikeStory, StoryRandomDelay]

  predicate Ascending(fs: seq<Field>) {
    forall i, j :: 0 <= i < j < |fs| ==> Rank(fs[i]) < Rank(fs[j])
  }

  /** The call of `f`'s setter, when `f` is given in `p` and its setter is
      registered. */
  function HookIfRegistered(p: Patch, hooks: set<Field>, f: Field): (calls: seq<HookCall>)
    ensures |calls| <= 1
    ensures forall call :: call in calls <==>
      call.field == f && f in hooks && PatchGet(p, f) == Some(call.value)
  {
    var v := PatchGet(p, f);
    if v.Some? && f in hooks then [HookCall(f, v.value)] else []
  }

  /** Every field except auto-online has a setter, listed in field order. */
  lemma HookedFieldsAreAllButOnline()
    ensures Ascending(HookedFields)
    ensures forall f :: f in HookedFields <==> f != AutoOnline
  {
    forall f ensures f in HookedFields <==> f != AutoOnline {
      match f
      case AutoOnline =>
      case AutoTyping => assert HookedFields[0] == f;
      case AutoRecording => assert HookedFields[1] == f;
      case AutoReadStory => assert HookedFields[2] == f;
      case AutoLikeStory => assert HookedFields[3] == f;
      case StoryRandomDelay => assert HookedFields[4] == f;
    }
  }

  /** At most one call of `f` in front of calls of later fields keeps the
      field order. */
  lemma ConsInFieldOrder(f: Field, head: seq<HookCall>, rest: seq<HookCall>)
    requires |head| <= 1 && forall call :: call in head ==> call.field == f
    requires forall i :: 0 <= i < |rest| ==> Rank(f) < Rank(rest[i].field)
    requires InFieldOrder(rest)
    ensures InFieldOrder(head + rest)
  {
    var calls := head + rest;
    forall i, j | 0 <= i < j < |calls| ensures Rank(calls[i].field) < Rank(calls[j].field) {
      if i < |head| {
        assert calls[i] in head && calls[j] == rest[j - |head|];
      } else {
        assert calls[i] == rest[i - |head|];
        assert calls[j] == rest[j - |head|];
      }
    }
  }

  /** The setter calls for the given fields `fs` of `p`, in the order of
      `fs`: one for each field that is given and has a registered setter. */
  function HookCalls(p: Patch, hooks: set<Field>, fs: seq<Field>): (calls: seq<HookCall>)
    requires Ascending(fs)
    ensures forall call :: call in calls <==>
      call.field in fs && call.field in hooks && PatchGet(p, call.field) == Some(call.value)
    ensures InFieldOrder(calls)
    ensures (forall f :: f in fs ==> PatchGet(p, f).None?) ==> calls == []
  {
    if fs == [] then []
    else
      var f := fs[0];
      var head := HookIfRegistered(p, hooks, f);
      var rest := HookCalls(p, hooks, fs[1..]);
      assert forall g :: g in fs <==> g == f || g in fs[1..];
      assert forall i :: 0 <= i < |rest| ==> Rank(f) < Rank(rest[i].field) by {
        forall i | 0 <= i < |rest| ensures Rank(f) < Rank(rest[i].field) {
          assert rest[i] in rest;
          var k :| 0 <= k < |fs[1..]| && fs[1..][k] == rest[i].field;
          assert fs[k + 1] == rest[i].field;
        }
      }
      ConsInFieldOrder(f, head, rest);
      var calls := head + rest;
      calls
  }

  /** `c` with every field given in `p` replaced. */
  function Merge(c: BotConfig, p: Patch): BotConfig {
    BotConfig(
      p.autoOnline.GetOr(c.autoOnline),
      p.autoTyping.GetOr(c.autoTyping),
      p.autoRecording.GetOr(c.autoRecording),
      p.autoReadStory.GetOr(c.autoReadStory),
      p.autoLikeStory.GetOr(c.autoLikeStory),
      p.storyRandomDelay.GetOr(c.storyRandomDelay))
  }

  lemma MergeFieldwise(c: BotConfig, p: Patch)
    ensures forall f :: Get(Merge(c, p), f) == PatchGet(p, f).GetOr(Get(c, f))
  {
    forall f ensures Get(Merge(c, p), f) == PatchGet(p, f).GetOr(Get(c, f)) {
      match f
      case AutoOnline =>
      case AutoTyping =>
      case AutoRecording =>
      case AutoReadStory =>
      case AutoLikeStory =>
      case StoryRandomDelay =>
    }
  }

  /** UpdateConfig: every field whose argument is given is overwritten and
      every other field kept; each given field other than auto-online also
      invokes its setter hook, if one is registered (`hooks`). */
  function UpdateConfig(c: BotConfig, p: Patch, hooks: set<Field>): (a: Applied)
    ensures forall f :: Get(a.config, f) == PatchGet(p, f).GetOr(Get(c, f))
    ensures forall call :: call in a.hookCalls <==>
      call.field != AutoOnline && call.field in hooks && PatchGet(p, call.field) == Some(call.value)
    ensures InFieldOrder(a.hookCalls)
  {
    MergeFieldwise(c, p);
    HookedFieldsAreAllButOnline();
    Applied(Merge(c, p), HookCalls(p, hooks, HookedFields))
  }

  /** An update with every argument nil changes nothing and calls no hook. */
  lemma UpdateEmptyIsIdentity(c: BotConfig, hooks: set<Field>)
    ensures UpdateConfig(c, EmptyPatch, hooks) == Applied(c, [])
  {
  }

  /** Applying the same update twice gives the configuration of applying
      it once. */
  lemma UpdateIdempotent(c: BotConfig, p: Patch, hooks: set<Field>)
    ensures UpdateConfig(UpdateConfig(c, p, hooks).config, p, hooks).config == UpdateConfig(c, p, hooks).config
  {
  }

  /** A value decoded from the settings file: only booleans matter. */
  datatype Json = JBool(b: bool) | JOther

  /** The boolean stored under `key`, if the key is present with a boolean. */
  function BoolAt(loaded: map<string, Json>, key: string): Option<bool> {
    if key in loaded && loaded[key].JBool? then Some(loaded[key].b) else None
  }

  /** The boolean the settings file holds for `f`, if any. */
  function FileValue(loaded: Option<map<string, Json>>, f: Field): Option<bool> {
    if loaded.Some? && JsonKey(f) in loaded.value && loaded.value[JsonKey(f)].JBool?
    then Some(loaded.value[JsonKey(f)].b) else None
  }

  /** The settings file read as an update: one argument per boolean key. */
  function PatchFromJson(loaded: Option<map<string, Json>>): (p: Patch)
    ensures loaded.None? ==> p == EmptyPatch
  {
    match loaded
    case None => EmptyPatch
    case Some(m) => Patch(
      BoolAt(m, JsonKey(AutoOnline)),
      BoolAt(m, JsonKey(AutoTyping)),
      BoolAt(m, JsonKey(AutoRecording)),
      BoolAt(m, JsonKey(AutoReadStory)),
      BoolAt(m, JsonKey(AutoLikeStory)),
      BoolAt(m, JsonKey(StoryRandomDelay)))
  }

  /** The update read from the file gives each field the file's boolean. */
  lemma PatchFromJsonFieldwise(loaded: Option<map<string, Json>>)
    ensures forall f :: PatchGet(PatchFromJson(loaded), f) == FileValue(loaded, f)
  {
    forall f ensures PatchGet(PatchFromJson(loaded), f) == FileValue(loaded, f) {
      match f
      case AutoOnline =>
      case AutoTyping =>
      case AutoRecording =>
      case AutoReadStory =>
      case AutoLikeStory =>
      case StoryRandomDelay =>
    }
  }

  /** The update that sets every field to its value in `c`. */
  function Restate(c: BotConfig): (p: Patch)
    ensures forall f :: PatchGet(p, f) == Some(Get(c, f))
  {
    Patch(Some(c.autoOnline), Some(c.autoTyping), Some(c.autoRecording),
          Some(c.autoReadStory), Some(c.autoLikeStory), Some(c.storyRandomDelay))
  }

  /** InitConfig: `loaded` is the decoded settings file (`None` when it
      cannot be read or decoded). A field takes the file's value only when
      its key holds a boolean; afterwards every registered setter hook
      except auto-online's is called with the resulting value. */
  function InitConfig(c: BotConfig, loaded: Option<map<string, Json>>, hooks: set<Field>): (a: Applied)
    ensures forall f :: Get(a.config, f) == FileValue(loaded, f).GetOr(Get(c, f))
    ensures forall call :: call in a.hookCalls <==>
      call.field != AutoOnline && call.field in hooks && call.value == Get(a.config, call.field)
    ensures InFieldOrder(a.hookCalls)
  {
    var config := UpdateConfig(c, PatchFromJson(loaded), {}).config;
    PatchFromJsonFieldwise(loaded);
    Applied(config, UpdateConfig(config, Restate(config), hooks).hookCalls)
  }

  /** The start-up merge is the partial update whose arguments are the
      boolean keys of the settings file. */
  lemma InitIsUpdateFromFile(c: BotConfig, loaded: Option<map<string, Json>>, hooks: set<Field>)
    ensures InitConfig(c, loaded, hooks).config == UpdateConfig(c, PatchFromJson(loaded), hooks).config
  {
  }

  /** A missing or unreadable settings file keeps the configuration. */
  lemma InitWithoutFileKeepsConfig(c: BotConfig, hooks: set<Field>)
    ensures InitConfig(c, None, hooks).config == c
  {
  }
}
