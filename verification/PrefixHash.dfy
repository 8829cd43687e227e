/** The prompt prefix that keys cache-affine routing, and the streaming rewrite of a request body. */
module PrefixHash {
  import opened Common
  import opened Json

  type CodeUnit = b: int | 0 <= b < 256

  const SEPARATOR: CodeUnit := 255
  const MAX_PREFIX_BYTES: nat := 8192

  // ----- Text as UTF-8 bytes -----

  function Encode(c: char): (bytes: seq<CodeUnit>)
    ensures bytes != [] && SEPARATOR !in bytes
  {
    var n := c as int;
    if n < 0x80 then [n]
    else if n < 0x800 then [0xC0 + n / 64, 0x80 + n % 64]
    else if n < 0x1_0000 then [0xE0 + n / 4096, 0x80 + n / 64 % 64, 0x80 + n % 64]
    else [0xF0 + n / 262144, 0x80 + n / 4096 % 64, 0x80 + n / 64 % 64, 0x80 + n % 64]
  }

  /** UTF-8 never produces the separator byte. */
  function Utf8(s: string): (bytes: seq<CodeUnit>)
    ensures SEPARATOR !in bytes
  {
    if s == [] then [] else Encode(s[0]) + Utf8(s[1..])
  }

  // ----- The hashed bytes -----

  predicate HasRole(m: Json, role: string) {
    Get(m, "role") == Some(String(role))
  }

  predicate Speaks(msgs: seq<Json>, role: string) {
    exists m | m in msgs :: HasRole(m, role)
  }

  /** The first message of that role, whatever its content is. */
  function Find(msgs: seq<Json>, role: string): Option<Json> {
    if msgs == [] then None
    else if HasRole(msgs[0], role) then Some(msgs[0])
    else Find(msgs[1..], role)
  }

  /** The text of the first message of that role, when its content is a string. */
  function TextOf(msgs: seq<Json>, role: string): Option<seq<CodeUnit>> {
    var m := Find(msgs, role);
    if m.None? then None
    else
      var content := Get(m.value, "content");
      if content.Some? && content.value.String? then Some(Utf8(content.value.s)) else None
  }

  function OrEmpty(text: Option<seq<CodeUnit>>): seq<CodeUnit> {
    if text.Some? then text.value else []
  }

  function Capped(bytes: seq<CodeUnit>): seq<CodeUnit> {
    if |bytes| <= MAX_PREFIX_BYTES then bytes else bytes[..MAX_PREFIX_BYTES]
  }

  function ChatPrefix(msgs: seq<Json>): Option<seq<CodeUnit>> {
    var system, user := TextOf(msgs, "system"), TextOf(msgs, "user");
    if system.None? && user.None? then None
    else Some(Capped(OrEmpty(system) + [SEPARATOR] + OrEmpty(user)))
  }

  predicate Contains(s: string, part: string) {
    |part| <= |s| && (s[..|part|] == part || (s != [] && Contains(s[1..], part)))
  }

  /** The bytes a request is hashed by; none means no cache affinity. */
  function Prefix(endpoint: string, body: Json): Option<seq<CodeUnit>> {
    if Contains(endpoint, "chat/completions") then
      var msgs := Get(body, "messages");
      if msgs.Some? && msgs.value.Array? then ChatPrefix(msgs.value.items) else None
    else if EndsWith(endpoint, "/completions") then
      var prompt := Get(body, "prompt");
      if prompt.Some? && prompt.value.String? then Some(Capped(Utf8(prompt.value.s))) else None
    else None
  }

  method FindText(msgs: seq<Json>, role: string) returns (text: Option<seq<CodeUnit>>)
    ensures text == TextOf(msgs, role)
  {
    var i := 0;
    while i < |msgs| && !HasRole(msgs[i], role)
      invariant 0 <= i <= |msgs|
      invariant Find(msgs, role) == Find(msgs[i..], role)
    {
      i := i + 1;
    }
    if i == |msgs| {
      return None;
    }
    var content := Get(msgs[i], "content");
    if content.Some? && content.value.String? {
      return Some(Utf8(content.value.s));
    }
    return None;
  }

  method ComputePrefix(endpoint: string, body: Json) returns (prefix: Option<seq<CodeUnit>>)
    ensures prefix == Prefix(endpoint, body)
    ensures prefix.Some? ==> |prefix.value| <= MAX_PREFIX_BYTES
  {
    if Contains(endpoint, "chat/completions") {
      var msgs := Get(body, "messages");
      if msgs.None? || !msgs.value.Array? {
        return None;
      }
      var buf, found := [], false;
      var system := FindText(msgs.value.items, "system");
      if system.Some? {
        buf, found := buf + system.value, true;
      }
      buf := buf + [SEPARATOR];
      var user := FindText(msgs.value.items, "user");
      if user.Some? {
        buf, found := buf + user.value, true;
      }
      if !found {
        return None;
      }
      assert buf == OrEmpty(system) + [SEPARATOR] + OrEmpty(user);
      return Some(Capped(buf));
    }
    if EndsWith(endpoint, "/completions") {
      var prompt := Get(body, "prompt");
      if prompt.None? || !prompt.value.String? {
        return None;
      }
      return Some(Capped(Utf8(prompt.value.s)));
    }
    return None;
  }

  // ----- What is hashed, in writing -----

  ghost predicate OccursAt(s: string, part: string, i: nat) {
    i + |part| <= |s| && s[i..i + |part|] == part
  }

  lemma {:induction false} ContainsExactly(s: string, part: string)
    ensures Contains(s, part) <==> exists i: nat :: OccursAt(s, part, i)
  {
    if |part| <= |s| && s[..|part|] == part {
      assert OccursAt(s, part, 0);
    } else if s != [] {
      ContainsExactly(s[1..], part);
      if i: nat :| OccursAt(s[1..], part, i) {
        assert OccursAt(s, part, i + 1);
      }
      if i: nat :| OccursAt(s, part, i) {
        assert OccursAt(s[1..], part, i - 1);
      }
    }
  }

  /** `text` is the content of the first message of that role, if that is a string. */
  ghost predicate FirstText(msgs: seq<Json>, role: string, text: Option<string>) {
    || (text == None && forall m :: m in msgs ==> Get(m, "role") != Some(String(role)))
    || exists i :: 0 <= i < |msgs| && Get(msgs[i], "role") == Some(String(role))
         && (forall j :: 0 <= j < i ==> Get(msgs[j], "role") != Some(String(role)))
         && (text.Some? ==> Get(msgs[i], "content") == Some(String(text.value)))
         && (text.None? ==> forall s :: Get(msgs[i], "content") != Some(String(s)))
  }

  lemma {:induction false} FindAt(msgs: seq<Json>, role: string, i: nat)
    requires i < |msgs| && HasRole(msgs[i], role) && forall j :: 0 <= j < i ==> !HasRole(msgs[j], role)
    ensures Find(msgs, role) == Some(msgs[i])
  {
    if i > 0 {
      FindAt(msgs[1..], role, i - 1);
    }
  }

  lemma {:induction false} FindNone(msgs: seq<Json>, role: string)
    requires forall m :: m in msgs ==> !HasRole(m, role)
    ensures Find(msgs, role) == None
  {
    if msgs != [] {
      assert msgs[0] in msgs;
      FindNone(msgs[1..], role);
    }
  }

  lemma TextIs(msgs: seq<Json>, role: string, text: Option<string>)
    requires FirstText(msgs, role, text)
    ensures TextOf(msgs, role) == if text.Some? then Some(Utf8(text.value)) else None
  {
    if forall m :: m in msgs ==> !HasRole(m, role) {
      FindNone(msgs, role);
      assert forall i :: 0 <= i < |msgs| ==> msgs[i] in msgs;
    } else {
      var i :| 0 <= i < |msgs| && HasRole(msgs[i], role)
        && (forall j :: 0 <= j < i ==> Get(msgs[j], "role") != Some(String(role)))
        && (text.Some? ==> Get(msgs[i], "content") == Some(String(text.value)))
        && (text.None? ==> forall s :: Get(msgs[i], "content") != Some(String(s)));
      FindAt(msgs, role, i);
    }
  }

  /**
   * A chat is hashed by the text of its first system message, a separator, and the text of its
   * first user message, at most 8192 bytes of them; a chat with neither text is not hashed.
   */
  lemma ChatPrefixIs(endpoint: string, body: Json, msgs: seq<Json>, system: Option<string>, user: Option<string>)
    requires exists i: nat :: OccursAt(endpoint, "chat/completions", i)
    requires Get(body, "messages") == Some(Array(msgs))
    requires FirstText(msgs, "system", system) && FirstText(msgs, "user", user)
    ensures var text := Utf8(if system.Some? then system.value else "") + [255]
                      + Utf8(if user.Some? then user.value else "");
            Prefix(endpoint, body) == if system.None? && user.None? then None
                                      else Some(if |text| <= 8192 then text else text[..8192])
  {
    ContainsExactly(endpoint, "chat/completions");
    TextIs(msgs, "system", system);
    TextIs(msgs, "user", user);
  }

  /** A completion is hashed by its prompt, if that is a string; no other request is hashed at all. */
  lemma PromptPrefixIs(endpoint: string, body: Json)
    requires forall i: nat :: !OccursAt(endpoint, "chat/completions", i)
    ensures forall prompt :: EndsWith(endpoint, "/completions") && Get(body, "prompt") == Some(String(prompt)) ==>
              Prefix(endpoint, body)
                == Some(if |Utf8(prompt)| <= 8192 then Utf8(prompt) else Utf8(prompt)[..8192])
    ensures !EndsWith(endpoint, "/completions") || (forall s :: Get(body, "prompt") != Some(String(s))) ==>
              Prefix(endpoint, body) == None
  {
    ContainsExactly(endpoint, "chat/completions");
  }

  /** A chat without an array of messages is not hashed either. */
  lemma NoMessages(endpoint: string, body: Json)
    requires exists i: nat :: OccursAt(endpoint, "chat/completions", i)
    requires forall msgs :: Get(body, "messages") != Some(Array(msgs))
    ensures Prefix(endpoint, body) == None
  {
    ContainsExactly(endpoint, "chat/completions");
  }

  /** How many bytes a character has, by its first. */
  function Width(first: CodeUnit): nat {
    if first < 0x80 then 1 else if first < 0xE0 then 2 else if first < 0xF0 then 3 else 4
  }

  /** The code point that a character's bytes spell (section 3 of RFC 3629). */
  function Point(bytes: seq<int>): int
    requires 1 <= |bytes| <= 4
  {
    if |bytes| == 1 then bytes[0]
    else if |bytes| == 2 then (bytes[0] - 0xC0) * 64 + (bytes[1] - 0x80)
    else if |bytes| == 3 then (bytes[0] - 0xE0) * 4096 + (bytes[1] - 0x80) * 64 + (bytes[2] - 0x80)
    else (bytes[0] - 0xF0) * 262144 + (bytes[1] - 0x80) * 4096 + (bytes[2] - 0x80) * 64 + (bytes[3] - 0x80)
  }

  lemma SixBits(n: nat)
    ensures n / 4096 == n / 64 / 64 && n / 262144 == n / 4096 / 64
    ensures n == n / 64 * 64 + n % 64
    ensures n == n / 4096 * 4096 + n / 64 % 64 * 64 + n % 64
    ensures n == n / 262144 * 262144 + n / 4096 % 64 * 4096 + n / 64 % 64 * 64 + n % 64
  {
  }

  lemma EncodeExact(c: char)
    ensures |Encode(c)| == Width(Encode(c)[0]) && Point(Encode(c)) == c as int
  {
    SixBits(c as int);
  }

  lemma EncodeInjective(a: char, b: char, x: seq<CodeUnit>, y: seq<CodeUnit>)
    requires Encode(a) + x == Encode(b) + y
    ensures a == b && x == y
  {
    EncodeExact(a);
    EncodeExact(b);
    SamePrefix(Encode(a), x, Encode(b), y);
  }

  lemma SamePrefix(p: seq<CodeUnit>, x: seq<CodeUnit>, q: seq<CodeUnit>, y: seq<CodeUnit>)
    requires p + x == q + y && p != [] && q != []
    requires |p| == Width(p[0]) && |q| == Width(q[0])
    ensures p == q && x == y
  {
    var whole := p + x;
    assert whole[0] == p[0] && whole[0] == (q + y)[0] == q[0];
    assert p == whole[..|p|] == q;
    assert x == whole[|p|..] == y;
  }

  /** No two texts have the same bytes. */
  lemma {:induction false} Utf8Injective(s: string, t: string)
    requires Utf8(s) == Utf8(t)
    ensures s == t
  {
    if s != [] && t != [] {
      EncodeInjective(s[0], t[0], Utf8(s[1..]), Utf8(t[1..]));
      Utf8Injective(s[1..], t[1..]);
    }
  }

  // ----- Appending turns -----

  /** No continuation of the conversation changes what is hashed. */
  ghost predicate Settled(msgs: seq<Json>) {
    forall more :: ChatPrefix(msgs + more) == ChatPrefix(msgs)
  }

  lemma {:induction false} FindAppend(msgs: seq<Json>, more: seq<Json>, role: string)
    ensures Find(msgs + more, role) == if Speaks(msgs, role) then Find(msgs, role) else Find(more, role)
    ensures Speaks(msgs, role) == Find(msgs, role).Some?
  {
    if msgs == [] {
      assert msgs + more == more;
    } else {
      FindAppend(msgs[1..], more, role);
      assert (msgs + more)[1..] == msgs[1..] + more;
      assert msgs == [msgs[0]] + msgs[1..];
    }
  }

  function Turn(role: string): Json {
    Object([Field("role", String(role)), Field("content", String("x"))])
  }

  lemma TurnText(role: string)
    ensures TextOf([Turn(role)], role) == Some([0x78])
    ensures forall other :: other != role ==> Find([Turn(role)], other) == None
  {
    var fields := Turn(role).fields;
    LookupHit(fields, 0, "role");
    assert HasRole(Turn(role), role);
    assert Find([Turn(role)], role) == Some(Turn(role));
    assert fields[0].key != "content" by {
      assert |fields[0].key| == 4 && |"content"| == 7;
    }
    LookupHit(fields, 1, "content");
    assert "x"[1..] == [];
    assert 'x' as int == 0x78;
    assert Encode('x') == [0x78];
    assert Utf8("x") == Encode('x') + Utf8([]) == [0x78];
  }

  /** A system text that already fills the cap hides everything behind it. */
  lemma FullPrefix(head: seq<CodeUnit>, a: seq<CodeUnit>, b: seq<CodeUnit>)
    requires |head| >= MAX_PREFIX_BYTES - 1
    ensures Capped(head + [SEPARATOR] + a) == Capped(head + [SEPARATOR] + b)
  {
    var n := MAX_PREFIX_BYTES;
    assert (head + [SEPARATOR] + a)[..n] == (head + [SEPARATOR])[..n] == (head + [SEPARATOR] + b)[..n];
  }

  /**
   * A conversation keeps its prefix through every further turn exactly when both roles have
   * spoken, or when the system text alone leaves no room for a user text under the cap.
   */
  lemma PrefixSettlesExactly(msgs: seq<Json>)
    ensures Settled(msgs) <==>
            || (Speaks(msgs, "system") && Speaks(msgs, "user"))
            || (var system := TextOf(msgs, "system");
                system.Some? && |system.value| >= MAX_PREFIX_BYTES - 1)
  {
    var system, user := TextOf(msgs, "system"), TextOf(msgs, "user");
    FindAppend(msgs, [], "system");
    FindAppend(msgs, [], "user");
    if Speaks(msgs, "system") && Speaks(msgs, "user") {
      forall more ensures ChatPrefix(msgs + more) == ChatPrefix(msgs) {
        FindAppend(msgs, more, "system");
        FindAppend(msgs, more, "user");
      }
    } else if system.Some? && |system.value| >= MAX_PREFIX_BYTES - 1 {
      forall more ensures ChatPrefix(msgs + more) == ChatPrefix(msgs) {
        FindAppend(msgs, more, "system");
        FullPrefix(system.value, OrEmpty(user), OrEmpty(TextOf(msgs + more, "user")));
      }
    } else if !Speaks(msgs, "system") {
      SystemTurnShows(msgs);
    } else {
      UserTurnShows(msgs);
    }
  }

  lemma SystemTurnShows(msgs: seq<Json>)
    requires !Speaks(msgs, "system")
    ensures ChatPrefix(msgs + [Turn("system")]) != ChatPrefix(msgs)
  {
    var more := [Turn("system")];
    TurnText("system");
    FindAppend(msgs, more, "system");
    assert TextOf(msgs, "system") == None;
    assert TextOf(msgs + more, "system") == Some([0x78]);
    assert ChatPrefix(msgs + more).value[0] == 0x78;
    if ChatPrefix(msgs).Some? {
      assert ChatPrefix(msgs).value[0] == SEPARATOR;
    }
  }

  lemma UserTurnShows(msgs: seq<Json>)
    requires Speaks(msgs, "system") && !Speaks(msgs, "user")
    requires var system := TextOf(msgs, "system"); system.Some? ==> |system.value| < MAX_PREFIX_BYTES - 1
    ensures ChatPrefix(msgs + [Turn("user")]) != ChatPrefix(msgs)
  {
    var more := [Turn("user")];
    TurnText("user");
    FindAppend(msgs, more, "system");
    FindAppend(msgs, more, "user");
    assert TextOf(msgs, "user") == None;
    assert TextOf(msgs + more, "user") == Some([0x78]);
    assert |ChatPrefix(msgs + more).value| == |OrEmpty(TextOf(msgs, "system"))| + 2;
  }

  /** The separator keeps the two texts apart: below the cap equal bytes mean equal texts. */
  lemma TextsRecoverable(a: seq<Json>, b: seq<Json>)
    requires ChatPrefix(a).Some? && ChatPrefix(b).Some?
    requires |ChatPrefix(a).value| < MAX_PREFIX_BYTES
    ensures ChatPrefix(a) == ChatPrefix(b) <==>
            && OrEmpty(TextOf(a, "system")) == OrEmpty(TextOf(b, "system"))
            && OrEmpty(TextOf(a, "user")) == OrEmpty(TextOf(b, "user"))
  {
    var s, t := OrEmpty(TextOf(a, "system")), OrEmpty(TextOf(b, "system"));
    var u, v := OrEmpty(TextOf(a, "user")), OrEmpty(TextOf(b, "user"));
    if ChatPrefix(a) == ChatPrefix(b) {
      SplitAtSeparator(s, u, t, v);
    }
  }

  lemma SplitAtSeparator(s: seq<CodeUnit>, u: seq<CodeUnit>, t: seq<CodeUnit>, v: seq<CodeUnit>)
    requires SEPARATOR !in s && SEPARATOR !in t
    requires s + [SEPARATOR] + u == t + [SEPARATOR] + v
    ensures s == t && u == v
  {
    var whole := s + [SEPARATOR] + u;
    assert forall i | 0 <= i < |s| :: whole[i] == s[i];
    assert forall i | 0 <= i < |t| :: whole[i] == t[i];
    assert whole[|s|] == whole[|t|] == SEPARATOR;
    assert |s| == |t|;
    assert s == whole[..|s|] && t == whole[..|t|];
    assert u == whole[|s| + 1..] && v == whole[|t| + 1..];
  }

  // ----- Asking the upstream for usage -----

  /** The stream options of an object, normalized to an object, with usage asked for. */
  function Options(body: Json): Json
    requires body.Object?
  {
    var opts := Lookup(body.fields, "stream_options");
    var kept := if opts.Some? && opts.value.Object? then opts.value.fields else [];
    Object(SetField(kept, "include_usage", Bool(true)))
  }

  function InjectIncludeUsage(body: Json): Json {
    if !body.Object? then body else Object(SetField(body.fields, "stream_options", Options(body)))
  }

  datatype Prepared = Prepared(body: Json, model: Option<string>, prefix: Option<seq<CodeUnit>>)

  predicate Trackable(endpoint: string) {
    Contains(endpoint, "chat/completions") || EndsWith(endpoint, "/completions")
  }

  function Prepare(endpoint: string, body: Json): Prepared {
    var model := Get(body, "model");
    var name := if model.Some? then AsString(model.value) else None;
    var sent :=
      if Get(body, "stream") == Some(Bool(true)) && Trackable(endpoint) then InjectIncludeUsage(body) else body;
    Prepared(sent, name, Prefix(endpoint, body))
  }

  /**
   * A tracked stream always asks for usage; nothing else the client sent is lost, and what the
   * request is routed by is the same before and after the rewrite, so preparing twice is
   * preparing once as far as any reader of the body can tell.
   */
  lemma RewriteKeepsRequest(endpoint: string, body: Json)
    ensures var sent := Prepare(endpoint, body).body;
            && (forall key :: key != "stream_options" ==> Get(sent, key) == Get(body, key))
            && (sent != body ==> Trackable(endpoint) && Get(body, "stream") == Some(Bool(true)))
            && (forall name ::
                  Prepare(endpoint, body).model == Some(name) <==> Get(body, "model") == Some(String(name)))
            && (Trackable(endpoint) && Get(sent, "stream") == Some(Bool(true)) ==>
                  Get(sent, "stream_options").Some?
                  && Get(Get(sent, "stream_options").value, "include_usage") == Some(Bool(true)))
            && (Get(body, "stream_options").Some? ==>
                  Get(sent, "stream_options").Some?
                  && forall key :: key != "include_usage" ==>
                     Get(Get(sent, "stream_options").value, key) == Get(Get(body, "stream_options").value, key))
            && Prepare(endpoint, sent).model == Prepare(endpoint, body).model
            && Prepare(endpoint, sent).prefix == Prepare(endpoint, body).prefix
  {
    var sent := Prepare(endpoint, body).body;
    forall key | key != "stream_options" ensures Get(sent, key) == Get(body, key) {
      InjectKeeps(body, key);
    }
    SameRouting(endpoint, sent, body);
    assert |"stream"| == 6 && |"stream_options"| == 14;
    assert Get(sent, "stream") == Get(body, "stream");
    if body.Object? {
      var injected := InjectIncludeUsage(body);
      InjectAsks(body, "");
      forall key | key != "include_usage" && Get(body, "stream_options").Some?
        ensures Get(Get(injected, "stream_options").value, key) == Get(Get(body, "stream_options").value, key)
      {
        InjectAsks(body, key);
      }
    }
  }

  lemma InjectKeeps(body: Json, key: string)
    requires key != "stream_options"
    ensures Get(InjectIncludeUsage(body), key) == Get(body, key)
  {
    if body.Object? {
      LookupSet(body.fields, "stream_options", Options(body), key);
    }
  }

  /** `sent` asks for usage, and option `key` is what it was. */
  ghost predicate Asked(body: Json, sent: Json, key: string) {
    && Get(sent, "stream_options").Some?
    && Get(Get(sent, "stream_options").value, "include_usage") == Some(Bool(true))
    && (Get(body, "stream_options").Some? && key != "include_usage" ==>
          Get(Get(sent, "stream_options").value, key) == Get(Get(body, "stream_options").value, key))
  }

  lemma InjectAsks(body: Json, key: string)
    requires body.Object?
    ensures Asked(body, InjectIncludeUsage(body), key)
  {
    var opts := Lookup(body.fields, "stream_options");
    var kept := if opts.Some? && opts.value.Object? then opts.value.fields else [];
    LookupSet(body.fields, "stream_options", Options(body), "stream_options");
    LookupSet(kept, "include_usage", Bool(true), "include_usage");
    LookupSet(kept, "include_usage", Bool(true), key);
  }

  /** What a request is routed by does not depend on its stream options. */
  lemma SameRouting(endpoint: string, a: Json, b: Json)
    requires forall key :: key != "stream_options" ==> Get(a, key) == Get(b, key)
    ensures Prepare(endpoint, a).model == Prepare(endpoint, b).model
    ensures Prepare(endpoint, a).prefix == Prepare(endpoint, b).prefix
  {
    assert |"messages"| == 8 && |"prompt"| == 6 && |"model"| == 5 && |"stream_options"| == 14;
    assert Get(a, "messages") == Get(b, "messages");
    assert Get(a, "prompt") == Get(b, "prompt");
    assert Get(a, "model") == Get(b, "model");
  }
}
