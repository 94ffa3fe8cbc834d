/** The LID/phone-number mapping cache and the JID string predicates
    (utils/lid_resolver.go). A JID is kept as its user part and its string
    rendering; the cache is a value passed in and returned. */
module LidResolver {
  import opened Wrappers
  import opened Text

  const LidSuffix := "@lid"
  const PnSuffix := "@s.whatsapp.net"
  const GroupSuffix := "@g.us"

  predicate IsLIDUser(jid: string) {
    HasSuffix(jid, LidSuffix)
  }

  predicate IsPNUser(jid: string) {
    HasSuffix(jid, PnSuffix)
  }

  predicate IsGroupJID(jid: string) {
    HasSuffix(jid, GroupSuffix)
  }

  /** No JID string is both a LID and a phone-number JID. */
  lemma LidAndPnExclusive(jid: string)
    ensures !(IsLIDUser(jid) && IsPNUser(jid))
  {
    if IsLIDUser(jid) {
      assert jid[|jid| - 1] == 'd' by {
        assert jid[|jid| - |LidSuffix|..][|LidSuffix| - 1] == jid[|jid| - 1];
      }
      if |PnSuffix| <= |jid| {
        assert jid[|jid| - |PnSuffix|..][|PnSuffix| - 1] == jid[|jid| - 1];
      }
    }
  }

  /** The two-way cache: a LID maps to its phone JID and the phone JID back
      to the LID. */
  type Cache = map<string, string>

  /** StoreLIDMapping: records both directions, unless either side is empty. */
  function StoreLIDMapping(cache: Cache, lid: string, pn: string): (c: Cache)
    ensures lid == "" || pn == "" ==> c == cache
    ensures lid != "" && pn != "" ==> lid in c && c[lid] == pn && pn in c && c[pn] == lid
    ensures lid != "" && pn != "" ==> c.Keys == cache.Keys + {lid, pn}
    ensures forall k :: k in cache && k != lid && k != pn ==> c[k] == cache[k]
  {
    if lid == "" || pn == "" then cache else cache[lid := pn][pn := lid]
  }

  /** GetPNForLID: the cached partner of `lid`, or "" when there is none. */
  function GetPNForLID(cache: Cache, lid: string): (pn: string)
    ensures lid !in cache ==> pn == ""
    ensures pn != "" ==> lid in cache && cache[lid] == pn
    ensures lid in cache ==> pn == cache[lid]
  {
    if lid in cache then cache[lid] else ""
  }

  /** GetLIDForPN: the cached partner of `pn` when it is a LID, else "". */
  function GetLIDForPN(cache: Cache, pn: string): (lid: string)
    ensures lid == "" || IsLIDUser(lid)
    ensures lid != "" ==> pn in cache && cache[pn] == lid
    ensures pn in cache && IsLIDUser(cache[pn]) ==> lid == cache[pn]
  {
    if pn in cache && IsLIDUser(cache[pn]) then cache[pn] else ""
  }

  /** A stored pair can be looked up in both directions. */
  lemma StoreThenLookup(cache: Cache, lid: string, pn: string)
    requires lid != "" && pn != ""
    ensures GetPNForLID(StoreLIDMapping(cache, lid, pn), lid) == pn
    ensures IsLIDUser(lid) ==> GetLIDForPN(StoreLIDMapping(cache, lid, pn), pn) == lid
  {
  }

  /** NormalizeJID: a LID whose cached partner is a phone JID becomes that
      phone JID; every other string, including "", is returned as is. */
  function NormalizeJID(cache: Cache, jid: string): (r: string)
    ensures jid == "" ==> r == ""
    ensures r != jid ==> IsLIDUser(jid) && jid in cache && cache[jid] == r && IsPNUser(r)
    ensures IsLIDUser(jid) && jid in cache && IsPNUser(cache[jid]) ==> r == cache[jid]
  {
    if jid == "" then ""
    else if IsLIDUser(jid) && GetPNForLID(cache, jid) != "" && IsPNUser(GetPNForLID(cache, jid)) then
      GetPNForLID(cache, jid)
    else jid
  }

  /** Normalizing twice is normalizing once. */
  lemma NormalizeJIDIdempotent(cache: Cache, jid: string)
    ensures NormalizeJID(cache, NormalizeJID(cache, jid)) == NormalizeJID(cache, jid)
  {
    var r := NormalizeJID(cache, jid);
    if r != jid {
      LidAndPnExclusive(r);
    }
  }

  /** ExtractPhoneFromJID: "" for an empty user, otherwise the user part
      before its first ':' (the device suffix). */
  function ExtractPhoneFromJID(user: string): (r: string)
    ensures ':' !in r
    ensures user == "" ==> r == ""
    ensures HasPrefix(user, r)
    ensures |r| < |user| ==> user[|r|] == ':'
  {
    if user == "" then "" else BeforeFirst(user, ':')
  }

  /** A JID as the resolver sees it: its user part and its string rendering
      (the library's `JID.String()`). */
  datatype Jid = Jid(user: string, text: string)

  /** IsSelfMessage: whether `sender` is the bot itself. `bot` is the bot's
      own JID when the store has one; `parseUser` stands for the library's
      JID parser, giving the user part of a JID string when it parses. */
  function IsSelfMessage(cache: Cache, sender: Jid, bot: Option<Jid>, parseUser: string -> Option<string>): (r: bool)
    ensures bot.None? ==> !r
    ensures bot.Some? && sender.user == bot.value.user ==> r
    ensures r ==> (bot.Some? && (
      || sender.user == bot.value.user
      || (IsLIDUser(sender.text) && sender.text in cache && parseUser(cache[sender.text]) == Some(bot.value.user))
      || (IsLIDUser(bot.value.text) && bot.value.text in cache && cache[bot.value.text] == sender.text && sender.text != "")))
    ensures (bot.Some? && IsLIDUser(sender.text) && sender.text in cache && cache[sender.text] != ""
      && parseUser(cache[sender.text]) == Some(bot.value.user)) ==> r
    ensures (bot.Some? && IsLIDUser(bot.value.text) && bot.value.text in cache
      && cache[bot.value.text] == sender.text && sender.text != "") ==> r
  {
    if bot.None? then false
    else
      var b := bot.value;
      if sender.user == b.user then true
      else
        var senderPN := GetPNForLID(cache, sender.text);
        if IsLIDUser(sender.text) && senderPN != "" && parseUser(senderPN) == Some(b.user) then true
        else
          var botPN := GetPNForLID(cache, b.text);
          IsLIDUser(b.text) && botPN != "" && sender.text == botPN
  }

  /** Once a sender's LID has been mapped to a phone JID whose user is the
      bot's, messages from that LID count as the bot's own. */
  lemma MappedLidIsSelf(cache: Cache, sender: Jid, bot: Jid, pn: string, parseUser: string -> Option<string>)
    requires IsLIDUser(sender.text) && pn != ""
    requires parseUser(pn) == Some(bot.user)
    ensures IsSelfMessage(StoreLIDMapping(cache, sender.text, pn), sender, Some(bot), parseUser)
  {
    assert sender.text != "";
  }
}
