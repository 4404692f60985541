/** Topic filters and account topics of the gateway's MQTT tab (public/js/gateway-edge-kit.js). */
module MqttTopics {
  import opened Wrappers
  import Text

  // ---------- Topic filters ----------

  predicate HasControl(s: string) {
    exists i :: 0 <= i < |s| && (s[i] <= '\U{1f}' || s[i] == '\U{7f}')
  }

  lemma ControlIs(s: string)
    ensures HasControl(s) <==> exists i :: 0 <= i < |s| && (s[i] as nat < 32 || s[i] as nat == 127)
  {
  }

  /** One turn of the loop over the levels. */
  predicate LevelOk(l: string, last: bool) {
    l != "" && ('#' in l ==> l == "#" && last) && ('+' in l ==> l == "+")
  }

  predicate LevelsOk(levels: seq<string>) {
    forall i :: 0 <= i < |levels| ==> LevelOk(levels[i], i == |levels| - 1)
  }

  /**
  The grammar of section 4.7 of MQTT 5.0 by characters: no empty level, `#` only at the end and behind a slash or
  at the start, `+` only between slashes or ends.
  */
  predicate FilterShape(t: string) {
    && t != "" && t[0] != '/' && t[|t| - 1] != '/'
    && (forall i :: 0 < i < |t| && t[i] == '/' ==> t[i - 1] != '/')
    && (forall i :: 0 <= i < |t| && t[i] == '#' ==> i == |t| - 1)
    && (forall i :: 0 < i < |t| && (t[i] == '#' || t[i] == '+') ==> t[i - 1] == '/')
    && (forall i :: 0 <= i < |t| - 1 && t[i] == '+' ==> t[i + 1] == '/')
  }

  /**
  What the gateway allows: such a filter of 1 to 128 units without control characters, not starting with $, # or +.
  */
  predicate Allowed(t: string) {
    && FilterShape(t) && Text.Units(t) <= 128 && !HasControl(t)
    && t[0] != '$' && t[0] != '#' && t[0] != '+'
  }

  method TopicOk(t: string) returns (ok: bool)
    ensures ok <==> Allowed(t)
  {
    LevelsAreShape(t);
    if t == "" || Text.Units(t) > 128 || HasControl(t) {
      return false;
    }
    if t[0] == '$' || t[0] == '#' || t[0] == '+' {
      return false;
    }
    var levels := Text.Split(t, '/');
    for i := 0 to |levels|
      invariant forall k :: 0 <= k < i ==> LevelOk(levels[k], k == |levels| - 1)
    {
      var l := levels[i];
      if l == "" {
        return false;
      }
      if '#' in l && (l != "#" || i != |levels| - 1) {
        return false;
      }
      if '+' in l && l != "+" {
        return false;
      }
    }
    return true;
  }

  /** A wildcard in the first `n` characters of a filter stands alone there, or a slash does too. */
  lemma WildcardIn(t: string, n: nat, i: nat)
    requires FilterShape(t) && i < n <= |t| && (t[i] == '#' || t[i] == '+')
    ensures i == 0 || '/' in t[..n]
    ensures i == n - 1 || '/' in t[..n]
  {
    if i > 0 {
      assert t[..n][i - 1] == '/';
    }
    if i < n - 1 {
      assert t[i] == '+' && t[..n][i + 1] == '/';
    }
  }

  lemma SingleLevel(l: string)
    requires '/' !in l
    ensures FilterShape(l) <==> LevelOk(l, true)
  {
    assert l[..|l|] == l;
    assert forall i :: 0 <= i < |l| ==> l[i] in l && l[i] != '/';
    if FilterShape(l) && '#' in l {
      var i :| 0 <= i < |l| && l[i] == '#';
      WildcardIn(l, |l|, i);
      assert l == "#";
    }
    if FilterShape(l) && '+' in l {
      var i :| 0 <= i < |l| && l[i] == '+';
      WildcardIn(l, |l|, i);
      assert l == "+";
    }
  }

  lemma LevelInShape(l: string, rest: string)
    requires '/' !in l && FilterShape(l + (['/'] + rest))
    ensures LevelOk(l, false)
  {
    var t := l + (['/'] + rest);
    assert t[..|l|] == l;
    assert t[|l|] == '/' && t[0] != '/';
    assert forall i :: 0 <= i < |l| ==> t[i] == l[i] && t[i] != '#';
    if '+' in l {
      var i :| 0 <= i < |l| && l[i] == '+';
      assert t[i] == '+';
      WildcardIn(t, |l|, i);
      assert l == "+";
    }
  }

  lemma RestInShape(l: string, rest: string)
    requires FilterShape(l + (['/'] + rest))
    ensures FilterShape(rest)
  {
    var t := l + (['/'] + rest);
    var n := |l| + 1;
    assert forall i :: 0 <= i < |rest| ==> rest[i] == t[n + i];
    assert t[n - 1] == '/' && t[|t| - 1] != '/';
    assert rest != "";
    assert t[|t| - 1] == rest[|rest| - 1] && t[n] == rest[0];
    forall i | 0 < i < |rest|
      ensures (rest[i] == '/' ==> rest[i - 1] != '/') && (rest[i] == '#' || rest[i] == '+' ==> rest[i - 1] == '/')
    {
      assert rest[i] == t[n + i] && rest[i - 1] == t[n + i - 1];
    }
    forall i | 0 <= i < |rest| - 1 ensures rest[i] != '#' && (rest[i] == '+' ==> rest[i + 1] == '/') {
      assert rest[i] == t[n + i] && rest[i + 1] == t[n + i + 1];
    }
  }

  lemma ShapeFromParts(l: string, rest: string)
    requires '/' !in l && LevelOk(l, false) && FilterShape(rest)
    ensures FilterShape(l + (['/'] + rest))
  {
    var t := l + (['/'] + rest);
    var n := |l| + 1;
    assert t[|t| - 1] == rest[|rest| - 1];
    forall i | 0 <= i < |t|
      ensures t[i] == '#' ==> i == |t| - 1
      ensures i > 0 && t[i] == '/' ==> t[i - 1] != '/'
      ensures i > 0 && (t[i] == '#' || t[i] == '+') ==> t[i - 1] == '/'
      ensures i < |t| - 1 && t[i] == '+' ==> t[i + 1] == '/'
    {
      if i < |l| {
        assert t[i] == l[i] && l[i] in l;
      } else if i >= n {
        assert t[i] == rest[i - n];
        assert i > n ==> t[i - 1] == rest[i - n - 1];
        assert i < |t| - 1 ==> t[i + 1] == rest[i - n + 1];
      } else {
        assert t[i] == '/' && t[i - 1] == l[i - 1] && l[i - 1] in l;
      }
    }
    assert t[0] == l[0] && l[0] in l;
  }

  lemma LevelsOfCons(l: string, levels: seq<string>)
    requires levels != []
    ensures LevelsOk([l] + levels) <==> LevelOk(l, false) && LevelsOk(levels)
  {
    var all := [l] + levels;
    assert forall k :: 0 <= k < |levels| ==> all[k + 1] == levels[k];
    if LevelsOk(all) {
      forall k | 0 <= k < |levels| ensures LevelOk(levels[k], k == |levels| - 1) {
        assert LevelOk(all[k + 1], k + 1 == |all| - 1);
      }
      assert LevelOk(all[0], 0 == |all| - 1);
    }
    if LevelOk(l, false) && LevelsOk(levels) {
      forall k | 0 <= k < |all| ensures LevelOk(all[k], k == |all| - 1) {
        assert k > 0 ==> all[k] == levels[k - 1] && LevelOk(levels[k - 1], k - 1 == |levels| - 1);
      }
    }
  }

  lemma ShapeOfCons(l: string, rest: string)
    requires '/' !in l
    ensures FilterShape(l + (['/'] + rest)) <==> LevelOk(l, false) && FilterShape(rest)
  {
    if FilterShape(l + (['/'] + rest)) {
      LevelInShape(l, rest);
      RestInShape(l, rest);
    } else if LevelOk(l, false) && FilterShape(rest) {
      ShapeFromParts(l, rest);
    }
  }

  /** The loop over the levels accepts exactly the character grammar. */
  lemma {:induction false} LevelsAreShape(t: string)
    ensures LevelsOk(Text.Split(t, '/')) <==> FilterShape(t)
    decreases |t|
  {
    var i := Text.IndexOf(t, '/');
    if i == |t| {
      SingleLevel(t);
      assert [t][0] == t && (LevelOk([t][0], true) ==> LevelsOk([t]))
          && (LevelsOk([t]) ==> LevelOk([t][0], 0 == |[t]| - 1));
    } else {
      var l, rest := t[..i], t[i + 1..];
      assert t == l + (['/'] + rest);
      LevelsAreShape(rest);
      LevelsOfCons(l, Text.Split(rest, '/'));
      ShapeOfCons(l, rest);
    }
  }

  // ---------- Accounts ----------

  datatype Grant = Grant(topic: string, access: string)

  datatype Planned = Planned(topic: string, access: string, source: string)

  /** USER_RE: a lower-case letter or digit, then 1 to 47 of those, `_`, `.` and `-`. */
  predicate UserShape(u: string) {
    && 2 <= |u| <= 48
    && ('a' <= u[0] <= 'z' || '0' <= u[0] <= '9')
    && forall i :: 0 <= i < |u| ==>
         'a' <= u[i] <= 'z' || '0' <= u[i] <= '9' || u[i] == '_' || u[i] == '.' || u[i] == '-'
  }

  const RESERVED: seq<string> := ["gc-edge", "gatecontrol", "edge", "admin", "root"]

  function UsernameProblem(u: string): Option<string> {
    if u == "" then Some("gwe.mqtt.new.user_required")
    else if !UserShape(u) then Some("gwe.mqtt.new.user_invalid")
    else if u in RESERVED then Some("gwe.mqtt.new.user_reserved")
    else None
  }

  /** Small letters and digits, and behind the first place also the three marks. */
  predicate IsUserChar(c: char, first: bool) {
    'a' <= c <= 'z' || '0' <= c <= '9' || (!first && c in {'_', '.', '-'})
  }

  /** The accepted names: two to forty-eight such characters, and none of the reserved words. */
  lemma UsernameIs(u: string)
    ensures UsernameProblem(u).None? <==>
            && 2 <= |u| <= 48 && (forall i :: 0 <= i < |u| ==> IsUserChar(u[i], i == 0))
            && u !in {"gc-edge", "gatecontrol", "edge", "admin", "root"}
  {
    assert UserShape(u) ==> forall i :: 0 <= i < |u| ==> IsUserChar(u[i], i == 0);
  }

  /** The vendor prefix of a device template; an unknown template is the custom one. */
  function VendorPrefix(template: string): Option<string> {
    if template == "shelly" then Some("shellies")
    else if template == "tasmota" then Some("tasmota")
    else if template == "esphome" then Some("esphome")
    else if template == "homeassistant" then Some("homeassistant")
    else None
  }

  function Under(prefix: string, user: string): string { prefix + (['/'] + (user + (['/'] + "#"))) }

  function Topics(ps: seq<Planned>): seq<string> { seq(|ps|, i requires 0 <= i < |ps| => ps[i].topic) }

  function GrantTopics(gs: seq<Grant>): seq<string> { seq(|gs|, i requires 0 <= i < |gs| => gs[i].topic) }

  ghost predicate Distinct(s: seq<string>) { forall i, j :: 0 <= i < j < |s| ==> s[i] != s[j] }

  /** Every topic once: `more` behind `own`, each where it comes first. */
  function Merge(own: seq<string>, more: seq<string>): seq<string> {
    if more == [] then own
    else
      var before := Merge(own, more[..|more| - 1]);
      if more[|more| - 1] in before then before else before + [more[|more| - 1]]
  }

  lemma {:induction false} MergeIs(own: seq<string>, more: seq<string>)
    ensures own <= Merge(own, more)
    ensures forall t :: t in Merge(own, more) <==> t in own || t in more
    ensures Distinct(own) ==> Distinct(Merge(own, more))
  {
    if more != [] {
      MergeIs(own, more[..|more| - 1]);
    }
  }

  /** The topics every account has, before the extra ones. */
  function OwnTopics(template: string, user: string): seq<string> {
    (if VendorPrefix(template).Some? then [Under(VendorPrefix(template).value, user)] else [])
        + [Under("devices", user)]
  }

  /** The access of the first grant of the topic. */
  function FirstAccess(extra: seq<Grant>, topic: string): Option<string> {
    if extra == [] then None
    else
      var before, last := FirstAccess(extra[..|extra| - 1], topic), extra[|extra| - 1];
      if before.Some? then before else if last.topic == topic then Some(last.access) else None
  }

  lemma {:induction false} FirstAccessIs(extra: seq<Grant>, topic: string)
    ensures FirstAccess(extra, topic).Some? <==> topic in GrantTopics(extra)
  {
    if extra != [] {
      var n := |extra| - 1;
      FirstAccessIs(extra[..n], topic);
      GrantStep(extra, n);
      assert extra[..n + 1] == extra;
    }
  }

  lemma GrantStep(extra: seq<Grant>, i: nat)
    requires i < |extra|
    ensures GrantTopics(extra[..i + 1]) == GrantTopics(extra[..i]) + [extra[i].topic]
    ensures GrantTopics(extra[..i + 1])[..i] == GrantTopics(extra[..i])
  {
  }

  /** The access of a topic behind one more grant: the first one decides. */
  lemma FirstAccessStep(extra: seq<Grant>, i: nat, topic: string)
    requires i < |extra|
    ensures FirstAccess(extra[..i + 1], topic) ==
            if topic in GrantTopics(extra[..i]) then FirstAccess(extra[..i], topic)
            else if extra[i].topic == topic then Some(extra[i].access) else None
  {
    assert extra[..i + 1][..i] == extra[..i];
    FirstAccessIs(extra[..i], topic);
  }

  function AccessOr(access: Option<string>, default: string): string {
    if access.Some? then access.value else default
  }

  /** What the dialog says of a topic: own topics are readwrite, an extra one has the access it was first given. */
  function Announced(template: string, user: string, extra: seq<Grant>, topic: string): Planned {
    if topic == Under("devices", user) then Planned(topic, "readwrite", "always")
    else if topic in OwnTopics(template, user) then Planned(topic, "readwrite", "template")
    else Planned(topic, AccessOr(FirstAccess(extra, topic), ""), "extra")
  }

  lemma {:induction false} AnnouncedStep(template: string, user: string, extra: seq<Grant>, i: nat, topic: string)
    requires i < |extra| && topic in OwnTopics(template, user) + GrantTopics(extra[..i])
    ensures Announced(template, user, extra[..i + 1], topic) == Announced(template, user, extra[..i], topic)
  {
    FirstAccessStep(extra, i, topic);
  }

  lemma TopicsContain(ps: seq<Planned>, p: Planned)
    requires p in ps
    ensures p.topic in Topics(ps)
  {
    var i :| 0 <= i < |ps| && ps[i] == p;
    assert Topics(ps)[i] == p.topic;
  }

  lemma OwnTopicsDiffer(template: string, user: string)
    ensures VendorPrefix(template).Some? ==> Under(VendorPrefix(template).value, user) != Under("devices", user)
  {
    var vendor := VendorPrefix(template);
    if vendor.Some? {
      assert Under(vendor.value, user)[0] == vendor.value[0] && Under("devices", user)[0] == 'd';
    }
  }

  /** The topics every account has. */
  method PlannedOwn(template: string, u: string) returns (out: seq<Planned>)
    ensures Topics(out) == OwnTopics(template, u)
    ensures forall p :: p in out ==> p == Announced(template, u, [], p.topic)
  {
    var vendor := VendorPrefix(template);
    OwnTopicsDiffer(template, u);
    out := [];
    if vendor.Some? {
      out := out + [Planned(Under(vendor.value, u), "readwrite", "template")];
    }
    out := out + [Planned(Under("devices", u), "readwrite", "always")];
  }

  /** One more extra topic: what was announced stays as it is, and a new topic takes the access given now. */
  lemma PlannedStep(template: string, u: string, extra: seq<Grant>, i: nat, out: seq<Planned>)
    requires i < |extra| && Topics(out) == Merge(OwnTopics(template, u), GrantTopics(extra[..i]))
    requires forall p :: p in out ==> p == Announced(template, u, extra[..i], p.topic)
    ensures forall p :: p in out ==> p == Announced(template, u, extra[..i + 1], p.topic)
    ensures var x := extra[i];
      x.topic !in Topics(out) ==> Planned(x.topic, x.access, "extra") == Announced(template, u, extra[..i + 1], x.topic)
    ensures GrantTopics(extra[..i + 1]) == GrantTopics(extra[..i]) + [extra[i].topic]
    ensures GrantTopics(extra[..i + 1])[..i] == GrantTopics(extra[..i])
  {
    GrantStep(extra, i);
    MergeIs(OwnTopics(template, u), GrantTopics(extra[..i]));
    forall p | p in out ensures p == Announced(template, u, extra[..i + 1], p.topic) {
      TopicsContain(out, p);
      AnnouncedStep(template, u, extra, i, p.topic);
    }
    if extra[i].topic !in Topics(out) {
      NewTopic(template, u, extra, i);
    }
  }

  lemma NewTopic(template: string, u: string, extra: seq<Grant>, i: nat)
    requires i < |extra| && extra[i].topic !in OwnTopics(template, u) + GrantTopics(extra[..i])
    ensures var x := extra[i];
      Planned(x.topic, x.access, "extra") == Announced(template, u, extra[..i + 1], x.topic)
  {
    FirstAccessStep(extra, i, extra[i].topic);
    var own := OwnTopics(template, u);
    assert own[|own| - 1] == Under("devices", u);
  }

  /** The topics the dialog announces: the own ones, then every extra one once. */
  method PlannedTopics(template: string, username: string, extra: seq<Grant>) returns (out: seq<Planned>)
    ensures Topics(out) == Merge(OwnTopics(template, if username == "" then "…" else username), GrantTopics(extra))
    ensures forall p :: p in out ==> p == Announced(template, if username == "" then "…" else username, extra, p.topic)
  {
    var u := if username == "" then "…" else username;
    out := PlannedOwn(template, u);
    ghost var own := OwnTopics(template, u);
    for i := 0 to |extra|
      invariant Topics(out) == Merge(own, GrantTopics(extra[..i]))
      invariant forall p :: p in out ==> p == Announced(template, u, extra[..i], p.topic)
    {
      PlannedStep(template, u, extra, i, out);
      var x := extra[i];
      if x.topic !in Topics(out) {
        out := out + [Planned(x.topic, x.access, "extra")];
      }
    }
    assert extra[..|extra|] == extra;
  }

  const ACCESS: seq<string> := ["readwrite", "read", "write"]

  function KnownAccess(access: string): string { if access in ACCESS then access else "readwrite" }

  /** What the request says of a topic. */
  function Granted(user: string, extra: seq<Grant>, topic: string): Grant {
    Grant(topic,
      if topic == Under("devices", user) then "readwrite" else KnownAccess(AccessOr(FirstAccess(extra, topic), "")))
  }

  lemma GrantsContain(gs: seq<Grant>, g: Grant)
    requires g in gs
    ensures g.topic in GrantTopics(gs)
  {
    var i :| 0 <= i < |gs| && gs[i] == g;
    assert GrantTopics(gs)[i] == g.topic;
  }

  /** The topics of the request that creates the account; the vendor topic travels as a prefix. */
  method AccountTopics(username: string, extra: seq<Grant>) returns (topics: seq<Grant>)
    ensures GrantTopics(topics) == Merge([Under("devices", username)], GrantTopics(extra))
    ensures forall g :: g in topics ==> g == Granted(username, extra, g.topic)
  {
    topics := [Grant(Under("devices", username), "readwrite")];
    assert GrantTopics(topics) == [Under("devices", username)];
    for i := 0 to |extra|
      invariant GrantTopics(topics) == Merge([Under("devices", username)], GrantTopics(extra[..i]))
      invariant forall g :: g in topics ==> g == Granted(username, extra[..i], g.topic)
    {
      GrantStep(extra, i);
      MergeIs([Under("devices", username)], GrantTopics(extra[..i]));
      forall g | g in topics ensures g == Granted(username, extra[..i + 1], g.topic) {
        GrantsContain(topics, g);
        FirstAccessStep(extra, i, g.topic);
      }
      var x := extra[i];
      if x.topic !in GrantTopics(topics) {
        FirstAccessStep(extra, i, x.topic);
        topics := topics + [Grant(x.topic, if x.access in ACCESS then x.access else "readwrite")];
      }
    }
    assert extra[..|extra|] == extra;
  }

  /**
  When the dialog tells the truth: announced and granted access of a shared topic agree exactly when it is the device
  topic, or the first grant of it has a known access; for the vendor topic, which is announced as readwrite, exactly
  when that first grant is not one to read or write only.
  */
  lemma AnnouncedIsGranted(template: string, user: string, extra: seq<Grant>, topic: string)
    requires topic in Merge([Under("devices", user)], GrantTopics(extra))
    ensures Announced(template, user, extra, topic).access == Granted(user, extra, topic).access <==>
            || topic == Under("devices", user)
            || (if topic in OwnTopics(template, user)
                then FirstAccess(extra, topic) != Some("read") && FirstAccess(extra, topic) != Some("write")
                else AccessOr(FirstAccess(extra, topic), "") in ACCESS)
  {
    MergeIs([Under("devices", user)], GrantTopics(extra));
    FirstAccessIs(extra, topic);
  }

  // ---------- What the lists promise ----------

  /** A plain word: what a prefix and an accepted user name consist of. */
  predicate Word(s: string) {
    s != "" && |s| <= 48 &&
    forall i :: 0 <= i < |s| ==> 'a' <= s[i] <= 'z' || '0' <= s[i] <= '9' || s[i] == '_' || s[i] == '.' || s[i] == '-'
  }

  lemma LastLevels(b: string, c: string)
    requires '/' !in b && '/' !in c
    ensures Text.Split(b + (['/'] + c), '/') == [b, c]
  {
    Text.SplitOfCons(b, '/', c);
    Text.SplitOfCons(c, '/', "");
  }

  lemma ThreeLevels(a: string, b: string, c: string)
    requires '/' !in a && '/' !in b && '/' !in c
    ensures Text.Split(a + (['/'] + (b + (['/'] + c))), '/') == [a, b, c]
  {
    LastLevels(b, c);
    Text.SplitOfCons(a, '/', b + (['/'] + c));
  }

  lemma WordIsLevel(s: string)
    requires Word(s)
    ensures '/' !in s && LevelOk(s, false)
  {
  }

  lemma ThreeLevelsOk(a: string, b: string)
    requires LevelOk(a, false) && LevelOk(b, false)
    ensures LevelsOk([a, b, "#"])
  {
    assert LevelOk("#", true);
  }

  lemma OwnTopicLevels(prefix: string, user: string)
    requires Word(prefix) && Word(user)
    ensures Text.Split(Under(prefix, user), '/') == [prefix, user, "#"]
    ensures FilterShape(Under(prefix, user))
  {
    WordIsLevel(prefix);
    WordIsLevel(user);
    ThreeLevels(prefix, user, "#");
    ThreeLevelsOk(prefix, user);
    LevelsAreShape(Under(prefix, user));
  }

  lemma OwnTopicChars(prefix: string, user: string)
    requires Word(prefix) && Word(user)
    ensures forall i :: 0 <= i < |Under(prefix, user)| ==> ' ' < Under(prefix, user)[i] < '\U{7f}'
    ensures Under(prefix, user)[0] == prefix[0] && |Under(prefix, user)| <= 99
  {
    var tail := user + (['/'] + "#");
    assert forall i :: 0 <= i < |tail| ==> tail[i] == '/' || tail[i] == '#' || (i < |user| && tail[i] == user[i]);
  }

  lemma OwnTopicAllowed(prefix: string, user: string)
    requires Word(prefix) && Word(user)
    ensures Allowed(Under(prefix, user))
  {
    OwnTopicLevels(prefix, user);
    OwnTopicChars(prefix, user);
    Text.UnitsOfAscii(Under(prefix, user));
  }

  /** The own topics of an account are accepted and distinct. */
  lemma OwnTopicsAllowed(template: string, user: string)
    requires Word(user)
    ensures Distinct(OwnTopics(template, user)) && forall t :: t in OwnTopics(template, user) ==> Allowed(t)
  {
    OwnTopicAllowed("devices", user);
    OwnTopicChars("devices", user);
    var vendor := VendorPrefix(template);
    if vendor.Some? {
      OwnTopicAllowed(vendor.value, user);
      OwnTopicChars(vendor.value, user);
    }
  }

  /**
  For an accepted user name and accepted extra topics the announced topics are pairwise distinct, all accepted, and
  the same as those of the request together with its vendor topic.
  */
  lemma PlannedIsGranted(template: string, user: string, extra: seq<Grant>)
    requires UsernameProblem(user).None? && forall g :: g in extra ==> Allowed(g.topic)
    ensures var planned := Merge(OwnTopics(template, user), GrantTopics(extra));
      var granted := Merge([Under("devices", user)], GrantTopics(extra));
      && Distinct(planned)
      && (forall t :: t in planned ==> Allowed(t))
      && (forall t :: t in planned <==>
            t in granted || (VendorPrefix(template).Some? && t == Under(VendorPrefix(template).value, user)))
  {
    MergeIs(OwnTopics(template, user), GrantTopics(extra));
    MergeIs([Under("devices", user)], GrantTopics(extra));
    OwnTopicsAllowed(template, user);
    forall t | t in GrantTopics(extra) ensures Allowed(t) {
      var i :| 0 <= i < |extra| && GrantTopics(extra)[i] == t;
      assert extra[i] in extra;
    }
  }

  /**
  Where they differ, for every user: the vendor topic is added for reading under the template `custom`, and then the
  template `shelly` is chosen, which announces that topic for reading and writing.
  */
  lemma VendorTopicIsAnnouncedWider(user: string, extra: seq<Grant>)
    requires UsernameProblem(user).None? && extra == [Grant(Under("shellies", user), "read")]
    ensures var x := Under("shellies", user);
      && Allowed(x) && x !in OwnTopics("custom", user)
      && x in Merge([Under("devices", user)], GrantTopics(extra))
      && Announced("shelly", user, extra, x).access == "readwrite" && Granted(user, extra, x).access == "read"
  {
    OwnTopicAllowed("shellies", user);
    OwnTopicsDiffer("shelly", user);
    MergeIs([Under("devices", user)], GrantTopics(extra));
    FirstAccessStep(extra, 0, Under("shellies", user));
    assert GrantTopics(extra)[0] == Under("shellies", user) && extra[..1] == extra;
  }

  // ---------- Matching ----------

  /** Whether a filter matches a topic, level by level (sections 4.7.1.2 and 4.7.1.3 of MQTT 5.0). */
  predicate Matches(filter: seq<string>, topic: seq<string>) {
    if filter == [] then topic == []
    else if filter[0] == "#" then |filter| == 1
    else topic != [] && (filter[0] == "+" || filter[0] == topic[0]) && Matches(filter[1..], topic[1..])
  }

  /** The device topics of two users have no topic in common. */
  lemma UsersAreApart(user: string, other: string, topic: seq<string>)
    requires UsernameProblem(user).None? && UsernameProblem(other).None? && user != other
    ensures !(Matches(Text.Split(Under("devices", user), '/'), topic)
        && Matches(Text.Split(Under("devices", other), '/'), topic))
  {
    OwnTopicLevels("devices", user);
    OwnTopicLevels("devices", other);
    DeviceFilter(user, topic);
    DeviceFilter(other, topic);
  }

  lemma DeviceFilter(user: string, topic: seq<string>)
    requires Word(user)
    ensures Matches(["devices", user, "#"], topic) ==> |topic| >= 2 && topic[1] == user
  {
    var filter := ["devices", user, "#"];
    assert filter[1..] == [user, "#"] && filter[0] == "devices" && filter[0][0] == 'd';
    assert "#"[0] == '#' && "+"[0] == '+';
    assert user != "#" && user != "+" && filter[0] != "#" && filter[0] != "+";
    if Matches(filter, topic) {
      assert Matches([user, "#"], topic[1..]);
    }
  }
}
