/**
 * `parseMessage(line, stripColors)`: one framed IRC line to a message record.
 *
 * The stages are written twice: as functions (`ParseTags`, `SplitPrefix`,
 * `ClassifyPrefix`, `CommandToken`, `ParseArgs`, composed by `ParseBody` and
 * `Parse`), which serve as the specification, and as the method `ParseMessage`,
 * which builds the record step by step in the source's order, with its two
 * loops, and is proved equal to `Parse`.
 */
module ParseMessage {
  import opened Wrappers
  import opened JsString
  import opened JsObject

  /** A tag value: `true`, a string, the derived emote map, or the badge list. */
  datatype TagValue =
    | Flag
    | Text(text: string)
    | EmoteMap(emotes: map<string, seq<string>>)
    | BadgeList(badges: seq<string>)

  /** An entry of the command table: the canonical name and the category (`normal`, `reply`, `error`). */
  datatype Reply = Reply(name: string, kind: string)

  /** The record `parseMessage` returns; `None` stands for a field left `undefined`. */
  datatype Message = Message(
    tags: Option<map<string, TagValue>>,
    prefix: Option<string>,
    nick: Option<string>,
    user: Option<string>,
    host: Option<string>,
    server: Option<string>,
    command: string,
    rawCommand: string,
    commandType: string,
    args: seq<string>)

  /** The two places where the source raises a TypeError. */
  datatype ThrowSite =
    | EmoteGroupWithoutColon  // `parts[1].split` on an emote group with no ':'
    | NoCommandToken          // `match[1]` when the command pattern does not match

  /** `null` for a malformed tag block, a message, or a thrown TypeError. */
  datatype Outcome = Malformed | Parsed(msg: Message) | TypeError(site: ThrowSite)

  // ---------------------------------------------------------------------------
  // Tags

  /** Tag keys have every `-` replaced by `_`. */
  function NormalizeKey(key: string): string {
    ReplaceAll(key, '-', '_')
  }

  /** One `key=value` tag: the key before the first `=`, the value up to the second, `true` if that is absent or empty. */
  function TagPair(tag: string): (string, TagValue) {
    var pair := Split(tag, '=');
    (NormalizeKey(pair[0]), if |pair| >= 2 && pair[1] != [] then Text(pair[1]) else Flag)
  }

  function TagPairs(rawTags: seq<string>): seq<(string, TagValue)> {
    seq(|rawTags|, i requires 0 <= i < |rawTags| => TagPair(rawTags[i]))
  }

  /** One more turn of the tag loop. */
  lemma TagStep(rawTags: seq<string>, i: nat)
    requires i < |rawTags|
    ensures FromAssignments(TagPairs(rawTags)[..i + 1]) ==
      FromAssignments(TagPairs(rawTags)[..i])[TagPair(rawTags[i]).0 := TagPair(rawTags[i]).1]
  {
    AssignOneMore(TagPairs(rawTags), i);
  }

  predicate AllHaveColon(groups: seq<string>) {
    forall i :: 0 <= i < |groups| ==> ':' in groups[i]
  }

  /** One `id:range,range` group of the `emotes` tag. */
  function EmotePair(group: string): (string, seq<string>)
    requires ':' in group
  {
    var parts := Split(group, ':');
    (parts[0], Split(parts[1], ','))
  }

  function EmotePairs(groups: seq<string>): seq<(string, seq<string>)>
    requires AllHaveColon(groups)
  {
    seq(|groups|, i requires 0 <= i < |groups| => EmotePair(groups[i]))
  }

  /** One more turn of the emote loop, on a group that holds `:`. */
  lemma EmoteStep(groups: seq<string>, j: nat)
    requires j < |groups| && AllHaveColon(groups[..j]) && ':' in groups[j]
    ensures AllHaveColon(groups[..j + 1])
    ensures FromAssignments(EmotePairs(groups[..j + 1])) ==
      FromAssignments(EmotePairs(groups[..j]))[EmotePair(groups[j]).0 := EmotePair(groups[j]).1]
  {
    var done := groups[..j + 1];
    assert done[..j] == groups[..j] && done[j] == groups[j];
    AssignOneMore(EmotePairs(done), j);
    assert EmotePairs(done)[..j] == EmotePairs(groups[..j]);
  }

  /** The emote map of an `emotes` text, or `None` where the source throws. */
  function BuildEmotes(emotesText: string): Option<map<string, seq<string>>> {
    var groups := Split(emotesText, '/');
    if AllHaveColon(groups) then Some(FromAssignments(EmotePairs(groups))) else None
  }

  /** The `emotes` and `badges` rules applied to the raw tag map; `None` where the source throws. */
  function PostProcess(tags: map<string, TagValue>): Option<map<string, TagValue>> {
    var withEmote :=
      if "emotes" in tags && tags["emotes"].Text? then
        match BuildEmotes(tags["emotes"].text)
        case None => None
        case Some(e) => Some(tags["emote" := EmoteMap(e)])
      else Some(tags);
    match withEmote
    case None => None
    case Some(t) =>
      if "badges" in t && t["badges"].Text? then Some(t["badges" := BadgeList(Split(t["badges"].text, ','))])
      else Some(t)
  }

  /** The tag map of a tag block (the text between `@` and the first space). */
  function ParseTags(block: string): Option<map<string, TagValue>> {
    PostProcess(FromAssignments(TagPairs(Split(block, ';'))))
  }

  // ---------------------------------------------------------------------------
  // Prefix

  /** `/^:([^ ]+) +/`: the prefix token and the line after it and the spaces that follow it. */
  function SplitPrefix(line: string): Option<(string, string)> {
    if line != [] && line[0] == ':' then
      var n := LeadingRun(line[1..], NotSpace);
      if n > 0 && 1 + n < |line| then
        Some((line[1..1 + n], line[1 + n + LeadingRun(line[1 + n..], IsSpace)..]))
      else None
    else None
  }

  /** The characters of `[_a-zA-Z0-9\~\[\]\\`^{}|-]`. */
  predicate IsNickChar(c: char) {
    ('a' <= c <= 'z') || ('A' <= c <= 'Z') || ('0' <= c <= '9') || c in "_~[]\\`^{}|-"
  }

  /** Where a message comes from: a nick with optional user and host, or a server. */
  datatype Origin = FromNick(nick: string, user: Option<string>, host: Option<string>) | FromServer(server: string)

  /** The group `!([^@]+)@(.*)` matched against the whole of `s`: the user and the host. */
  function UserAtHost(s: string): Option<(string, string)> {
    if s != [] && s[0] == '!' then
      match IndexOf(s[1..], '@')
      case Some(a) =>
        if a > 0 && NoLineTerminators(s[a + 2..]) then Some((s[1..a + 1], s[a + 2..])) else None
      case None => None
    else None
  }

  /** `/^([nick chars]*)(!([^@]+)@(.*))?$/` applied to the prefix; no match means a server name. */
  function ClassifyPrefix(prefix: string): Origin {
    var n := LeadingRun(prefix, IsNickChar);
    if n == |prefix| then
      FromNick(prefix, None, None)
    else
      match UserAtHost(prefix[n..])
      case Some((user, host)) => FromNick(prefix[..n], Some(user), Some(host))
      case None => FromServer(prefix)
  }

  // ---------------------------------------------------------------------------
  // Command

  /**
   * The match of `^([^ ]+)` followed by optional spaces, and `replace(/^[^ ]+ +/, '')`:
   * the command token and the line left for the parameters, which keeps the
   * token when no space follows it.
   */
  function CommandToken(line: string): Option<(string, string)> {
    if line == [] || line[0] == ' ' then None
    else
      var n := LeadingRun(line, NotSpace);
      var spaces := LeadingRun(line[n..], IsSpace);
      Some((line[..n], if spaces == 0 then line else line[n + spaces..]))
  }

  // ---------------------------------------------------------------------------
  // Parameters

  /** A `:` that begins the line or follows whitespace: where `/^:|\s+:/` can match. */
  predicate IsMarker(line: string, p: int) {
    0 <= p < |line| && line[p] == ':' && (p == 0 || IsWhitespace(line[p - 1]))
  }

  /** The first trailing-parameter marker at or after `i`. */
  function MarkerFrom(line: string, i: nat): (r: Option<nat>)
    requires i <= |line|
    ensures r.None? ==> forall p :: i <= p < |line| ==> !IsMarker(line, p)
    ensures r.Some? ==>
      i <= r.value && IsMarker(line, r.value) && forall p :: i <= p < r.value ==> !IsMarker(line, p)
    decreases |line| - i
  {
    if i == |line| then None
    else if IsMarker(line, i) then Some(i)
    else MarkerFrom(line, i + 1)
  }

  function Marker(line: string): Option<nat> {
    MarkerFrom(line, 0)
  }

  /**
   * The middle text and the trailing parameter. For the first marker at `p`,
   * `/(.*?)(?:^:|\s+:)(.*)/` captures in its first group the text before the
   * whitespace run that ends at `p`, which is `TrimRight(line[..p])`, and in its
   * second group the rest of the line; the source then trims the first group.
   */
  function MiddleAndTrailing(line: string): (string, Option<string>) {
    match Marker(line)
    case None => (line, None)
    case Some(p) => (TrimRight(TrimRight(line[..p])), Some(line[p + 1..]))
  }

  /** The argument list built from the parameter text. */
  function ParseArgs(line: string): seq<string> {
    var (middle, trailing) := MiddleAndTrailing(line);
    (if middle != [] then SplitOnSpaceRuns(middle) else []) +
    (if trailing.Some? && trailing.value != [] then [trailing.value] else [])
  }

  // ---------------------------------------------------------------------------
  // The whole line

  /** The `nick`, `user`, `host` and `server` fields that go with an optional prefix. */
  function OriginFields(prefix: Option<string>): (Option<string>, Option<string>, Option<string>, Option<string>) {
    match prefix
    case None => (None, None, None, None)
    case Some(p) =>
      match ClassifyPrefix(p)
      case FromNick(nick, user, host) => (Some(nick), user, host, None)
      case FromServer(server) => (None, None, None, Some(server))
  }

  /** The line after the tag block: prefix, command and parameters. */
  function ParseBody(line: string, tags: Option<map<string, TagValue>>, codes: map<string, Reply>): Outcome {
    var (prefix, rest) :=
      match SplitPrefix(line)
      case None => (None, line)
      case Some((p, r)) => (Some(p), r);
    var (nick, user, host, server) := OriginFields(prefix);
    match CommandToken(rest)
    case None => TypeError(NoCommandToken)
    case Some((token, params)) =>
      Parsed(Message(
        tags, prefix, nick, user, host, server,
        if token in codes then codes[token].name else token,
        token,
        if token in codes then codes[token].kind else "normal",
        ParseArgs(params)))
  }

  /** The result of `parseMessage` on a line (after any colour stripping), with command table `codes`. */
  function Parse(line: string, codes: map<string, Reply>): Outcome {
    if line != [] && line[0] == '@' then
      match IndexOf(line, ' ')
      case None => Malformed
      case Some(n) =>
        match ParseTags(line[1..n])
        case None => TypeError(EmoteGroupWithoutColon)
        case Some(tags) => ParseBody(line[n + 1..], Some(tags), codes)
    else
      ParseBody(line, None, codes)
  }

  /** The loop that fills `message.tags`, one `key=value` tag at a time. */
  method AssignTags(rawTags: seq<string>) returns (tagMap: map<string, TagValue>)
    ensures tagMap == FromAssignments(TagPairs(rawTags))
  {
    tagMap := map[];
    var i := 0;
    while i < |rawTags|
      invariant 0 <= i <= |rawTags|
      invariant tagMap == FromAssignments(TagPairs(rawTags)[..i])
    {
      var pair := Split(rawTags[i], '=');
      var key := NormalizeKey(pair[0]);
      var value := if |pair| >= 2 && pair[1] != [] then Text(pair[1]) else Flag;
      assert (key, value) == TagPair(rawTags[i]);
      TagStep(rawTags, i);
      tagMap := tagMap[key := value];
      i := i + 1;
    }
    assert TagPairs(rawTags)[..|rawTags|] == TagPairs(rawTags);
  }

  /** The loop that fills the emote map; `None` where `parts[1]` is undefined and the source throws. */
  method AssignEmotes(emoticons: seq<string>) returns (emotes: Option<map<string, seq<string>>>)
    ensures emotes.Some? <==> AllHaveColon(emoticons)
    ensures emotes.Some? ==> emotes.value == FromAssignments(EmotePairs(emoticons))
  {
    var acc: map<string, seq<string>> := map[];
    var j := 0;
    while j < |emoticons|
      invariant 0 <= j <= |emoticons|
      invariant AllHaveColon(emoticons[..j])
      invariant acc == FromAssignments(EmotePairs(emoticons[..j]))
    {
      var parts := Split(emoticons[j], ':');
      if |parts| < 2 {
        assert ':' !in emoticons[j];
        return None;
      }
      EmoteStep(emoticons, j);
      acc := acc[parts[0] := Split(parts[1], ',')];
      j := j + 1;
    }
    assert emoticons[..|emoticons|] == emoticons;
    emotes := Some(acc);
  }

  /** `lib/parse_message.js` lines 34-62: the tag map of a tag block, or `None` where the emote loop throws. */
  method ReadTags(block: string) returns (tags: Option<map<string, TagValue>>)
    ensures tags == ParseTags(block)
  {
    var tagMap := AssignTags(Split(block, ';'));
    if "emotes" in tagMap && tagMap["emotes"].Text? {
      var emotes := AssignEmotes(Split(tagMap["emotes"].text, '/'));
      if emotes.None? {
        return None;
      }
      tagMap := tagMap["emote" := EmoteMap(emotes.value)];
    }
    if "badges" in tagMap && tagMap["badges"].Text? {
      tagMap := tagMap["badges" := BadgeList(Split(tagMap["badges"].text, ','))];
    }
    tags := Some(tagMap);
  }

  /** `lib/parse_message.js` lines 99-116: the middle/trailing split of the parameter text. */
  method ReadArgs(line: string) returns (args: seq<string>)
    ensures args == ParseArgs(line)
  {
    args := [];
    var middle: string;
    var trailing: Option<string> := None;
    var marker := Marker(line);
    if marker.Some? {
      middle := TrimRight(TrimRight(line[..marker.value]));
      trailing := Some(line[marker.value + 1..]);
    } else {
      middle := line;
    }
    if |middle| > 0 {
      args := SplitOnSpaceRuns(middle);
    }
    if trailing.Some? && |trailing.value| > 0 {
      args := args + [trailing.value];
    }
  }

  /** `lib/parse_message.js` lines 72-116: prefix, command and parameters of the line after the tag block. */
  method ReadBody(line: string, tags: Option<map<string, TagValue>>, codes: map<string, Reply>) returns (r: Outcome)
    ensures r == ParseBody(line, tags, codes)
  {
    var rest := line;
    var prefix, nick, user, host, server: Option<string> := None, None, None, None, None;
    var split := SplitPrefix(rest);
    if split.Some? {
      prefix := Some(split.value.0);
      rest := split.value.1;
      var origin := ClassifyPrefix(split.value.0);
      if origin.FromNick? {
        nick, user, host := Some(origin.nick), origin.user, origin.host;
      } else {
        server := prefix;
      }
    }

    var command := CommandToken(rest);
    if command.None? {
      return TypeError(NoCommandToken);
    }
    var name, rawCommand, commandType := command.value.0, command.value.0, "normal";
    rest := command.value.1;
    if rawCommand in codes {
      name, commandType := codes[rawCommand].name, codes[rawCommand].kind;
    }

    var args := ReadArgs(rest);

    r := Parsed(Message(tags, prefix, nick, user, host, server, name, rawCommand, commandType, args));
  }

  /**
   * `parseMessage(line, stripColors)` as the source runs it. `strip` stands for
   * the colour-stripping library, `codes` for the command table. The line the
   * parser sees is assumed to hold no line terminator, as framing removed them.
   */
  method ParseMessage(line: string, stripColors: bool, strip: string -> string, codes: map<string, Reply>)
    returns (r: Outcome)
    requires NoLineTerminators(if stripColors then strip(line) else line)
    ensures r == Parse(if stripColors then strip(line) else line, codes)
  {
    var rest := if stripColors then strip(line) else line;
    var tags: Option<map<string, TagValue>> := None;
    if rest != [] && rest[0] == '@' {
      var nextspace := IndexOf(rest, ' ');
      if nextspace.None? {
        return Malformed;
      }
      tags := ReadTags(rest[1..nextspace.value]);
      if tags.None? {
        return TypeError(EmoteGroupWithoutColon);
      }
      rest := rest[nextspace.value + 1..];
    }
    r := ReadBody(rest, tags, codes);
  }
}
