/** The uptime line of the ping reply (commnads/ping.go): whole seconds
    since start split into hours, minutes and seconds and rendered with the
    leading zero units left out. */
module Ping {
  import opened Text

  datatype Hms = Hms(hours: nat, mins: nat, secs: nat)

  /** The split of `s` seconds into hours, minutes below 60 and seconds
      below 60. */
  function UptimeParts(s: nat): (p: Hms)
    ensures p.hours * 3600 + p.mins * 60 + p.secs == s
    ensures p.mins < 60 && p.secs < 60
  {
    Hms(s / 3600, (s % 3600) / 60, s % 60)
  }

  /** The split is the only one with minutes and seconds below 60. */
  lemma UptimePartsUnique(s: nat, p: Hms)
    requires p.mins < 60 && p.secs < 60
    requires p.hours * 3600 + p.mins * 60 + p.secs == s
    ensures p == UptimeParts(s)
  {
    var q := UptimeParts(s);
    assert p.mins * 60 + p.secs < 3600;
    assert q.mins * 60 + q.secs < 3600;
    assert p.hours == q.hours;
    assert p.mins * 60 + p.secs == q.mins * 60 + q.secs;
  }

  /** getUptime: "Xh Ym Zs" from one hour on, "Ym Zs" from one minute on,
      "Zs" below a minute. */
  function FormatUptime(s: nat): (r: string)
    ensures r != [] && r[|r| - 1] == 's'
    ensures 'h' in r <==> s >= 3600
    ensures 'm' in r <==> s >= 60
  {
    var p := UptimeParts(s);
    if p.hours > 0 then Unit(p.hours, "h ", Unit(p.mins, "m ", Unit(p.secs, "s", "")))
    else if p.mins > 0 then Unit(p.mins, "m ", Unit(p.secs, "s", ""))
    else Unit(p.secs, "s", "")
  }

  /** Different uptimes are rendered differently. */
  lemma FormatUptimeInjective(s1: nat, s2: nat)
    requires FormatUptime(s1) == FormatUptime(s2)
    ensures s1 == s2
  {
    var p, q := UptimeParts(s1), UptimeParts(s2);
    if p.hours > 0 {
      assert q.hours > 0;
      UnitInjective(p.hours, Unit(p.mins, "m ", Unit(p.secs, "s", "")), q.hours, Unit(q.mins, "m ", Unit(q.secs, "s", "")), "h ");
      UnitInjective(p.mins, Unit(p.secs, "s", ""), q.mins, Unit(q.secs, "s", ""), "m ");
      UnitInjective(p.secs, "", q.secs, "", "s");
    } else if p.mins > 0 {
      assert q.hours == 0 && q.mins > 0;
      UnitInjective(p.mins, Unit(p.secs, "s", ""), q.mins, Unit(q.secs, "s", ""), "m ");
      UnitInjective(p.secs, "", q.secs, "", "s");
    } else {
      assert q.hours == 0 && q.mins == 0;
      UnitInjective(p.secs, "", q.secs, "", "s");
    }
  }
}
