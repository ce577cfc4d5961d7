/**
 * What `parseMessage` promises, stated over the specification `Parse` and its
 * stages, each against an independent description of the text it accepts.
 */
module ParseMessageProperties {
  import opened Wrappers
  import opened JsString
  import opened JsObject
  import opened ParseMessage

  // ---------------------------------------------------------------------------
  // The malformed sentinel and the tag block

  /** `null` comes back exactly for a line that starts with `@` and holds no space. */
  lemma MalformedIff(line: string, codes: map<string, Reply>)
    ensures Parse(line, codes) == Malformed <==> (line != [] && line[0] == '@' && ' ' !in line)
  {
  }

  /**
   * A tag block is the text between `@` and the first space; exactly that one
   * space is consumed, and the rest of the line goes to the body stages whatever
   * it starts with.
   */
  lemma TagBlockThenBody(block: string, rest: string, codes: map<string, Reply>)
    requires ' ' !in block
    ensures Parse("@" + block + " " + rest, codes) ==
      match ParseTags(block)
      case None => TypeError(EmoteGroupWithoutColon)
      case Some(tags) => ParseBody(rest, Some(tags), codes)
  {
    var line := "@" + block + " " + rest;
    assert IndexOf(line, ' ') == Some(1 + |block|) by {
      assert line[0] == '@' && line[1 + |block|] == ' ';
      assert forall i :: 1 <= i < 1 + |block| ==> line[i] == block[i - 1];
      IndexOfIs(line, ' ', 1 + |block|);
    }
    assert line[1..1 + |block|] == block;
    assert line[2 + |block|..] == rest;
  }

  /** A line that does not start with `@` has no tags and goes straight to the body stages. */
  lemma NoTagBlock(line: string, codes: map<string, Reply>)
    requires line == [] || line[0] != '@'
    ensures Parse(line, codes) == ParseBody(line, None, codes)
    ensures Parse(line, codes).Parsed? ==> Parse(line, codes).msg.tags == None
  {
  }

  /** A tag `key=value...`: the key normalised, the value up to any second `=`, `true` when empty. */
  lemma TagWithEquals(tag: string, key: string, value: string, more: string)
    requires tag == key + "=" + value + more
    requires '=' !in key && '=' !in value
    requires more == [] || more[0] == '='
    ensures TagPair(tag) == (NormalizeKey(key), if value == [] then Flag else Text(value))
  {
    SplitAfter(tag, '=', key, value + more);
    SplitFirst(value + more, '=', value, more);
  }

  /** A tag without `=` is a key with the value `true`. */
  lemma TagWithoutEquals(tag: string)
    requires '=' !in tag
    ensures TagPair(tag) == (NormalizeKey(tag), Flag)
  {
  }

  /** The raw tag map has one key per tag, each the text before the tag's first `=`, normalised. */
  lemma RawTagKeys(block: string)
    ensures var raw := Split(block, ';');
      FromAssignments(TagPairs(raw)).Keys == set i | 0 <= i < |raw| :: NormalizeKey(Split(raw[i], '=')[0])
  {
    var raw := Split(block, ';');
    var pairs := TagPairs(raw);
    FromAssignmentsKeys(pairs);
    var keys := set i | 0 <= i < |raw| :: NormalizeKey(Split(raw[i], '=')[0]);
    assert FromAssignments(pairs).Keys == keys by {
      forall k | k in FromAssignments(pairs) ensures k in keys {
        var i :| 0 <= i < |pairs| && pairs[i].0 == k;
        assert NormalizeKey(Split(raw[i], '=')[0]) == k;
      }
      forall k | k in keys ensures k in FromAssignments(pairs) {
        var i :| 0 <= i < |raw| && NormalizeKey(Split(raw[i], '=')[0]) == k;
        assert pairs[i].0 == k;
      }
    }
  }

  /** A tag's value is the one of the last tag with the same normalised key. */
  lemma LaterTagWins(block: string, i: nat)
    requires i < |Split(block, ';')|
    requires var raw := Split(block, ';');
      forall j :: i < j < |raw| ==> TagPair(raw[j]).0 != TagPair(raw[i]).0
    ensures var raw := Split(block, ';');
      var (key, value) := TagPair(raw[i]);
      key in FromAssignments(TagPairs(raw)) && FromAssignments(TagPairs(raw))[key] == value
  {
    LastAssignmentWins(TagPairs(Split(block, ';')), i);
  }

  /** The tags of a message are those of the line's tag block. */
  lemma TagsFromBlock(line: string, codes: map<string, Reply>)
    requires Parse(line, codes).Parsed? && Parse(line, codes).msg.tags.Some?
    ensures line != [] && line[0] == '@' && IndexOf(line, ' ').Some?
    ensures var n := IndexOf(line, ' ').value;
      1 <= n && ParseTags(line[1..n]) == Parse(line, codes).msg.tags
  {
  }

  /** No key of a tag map contains `-`. */
  lemma NoHyphenInTagKeys(block: string)
    requires ParseTags(block).Some?
    ensures forall k :: k in ParseTags(block).value ==> '-' !in k
  {
    var raw := Split(block, ';');
    var pairs := TagPairs(raw);
    FromAssignmentsKeys(pairs);
    var rawMap := FromAssignments(pairs);
    assert forall k :: k in rawMap ==> '-' !in k by {
      forall k | k in rawMap ensures '-' !in k {
        var i :| 0 <= i < |pairs| && pairs[i].0 == k;
        assert k == NormalizeKey(Split(raw[i], '=')[0]);
      }
    }
    PostProcessKeys(rawMap);
  }

  /** No key of a returned message's tag map contains `-`. */
  lemma NoHyphenInMessageTags(line: string, codes: map<string, Reply>)
    requires Parse(line, codes).Parsed? && Parse(line, codes).msg.tags.Some?
    ensures forall k :: k in Parse(line, codes).msg.tags.value ==> '-' !in k
  {
    TagsFromBlock(line, codes);
    NoHyphenInTagKeys(line[1..IndexOf(line, ' ').value]);
  }

  /** The tag rules add at most the key `emote`. */
  lemma PostProcessKeys(tags: map<string, TagValue>)
    requires PostProcess(tags).Some?
    ensures PostProcess(tags).value.Keys <= tags.Keys + {"emote"}
  {
  }

  // ---------------------------------------------------------------------------
  // The `emotes` and `badges` rules

  /**
   * A textual `emotes` tag adds the map `emote`, built group by group, and stays
   * as it was; a group without `:` makes the source throw.
   */
  lemma EmotesRule(tags: map<string, TagValue>)
    requires "emotes" in tags && tags["emotes"].Text?
    ensures var groups := Split(tags["emotes"].text, '/');
      PostProcess(tags).None? <==> !AllHaveColon(groups)
    ensures var groups := Split(tags["emotes"].text, '/');
      PostProcess(tags).Some? ==>
        AllHaveColon(groups) &&
        "emote" in PostProcess(tags).value &&
        PostProcess(tags).value["emote"] == EmoteMap(FromAssignments(EmotePairs(groups))) &&
        PostProcess(tags).value["emotes"] == tags["emotes"]
  {
  }

  /** An emote group `id:ranges...` maps `id` to the ranges before any second `:`, split on `,`. */
  lemma EmoteGroup(group: string, id: string, ranges: string, more: string)
    requires group == id + ":" + ranges + more
    requires ':' !in id && ':' !in ranges
    requires more == [] || more[0] == ':'
    ensures ':' in group
    ensures EmotePair(group) == (id, Split(ranges, ','))
  {
    assert group[|id|] == ':';
    SplitAfter(group, ':', id, ranges + more);
    SplitFirst(ranges + more, ':', ranges, more);
  }

  /** Without a textual `emotes` tag nothing throws and `emote` is left as the tags had it. */
  lemma NoEmotesText(tags: map<string, TagValue>)
    requires !("emotes" in tags && tags["emotes"].Text?)
    ensures PostProcess(tags).Some?
    ensures ("emote" in PostProcess(tags).value <==> "emote" in tags)
    ensures "emote" in tags ==> PostProcess(tags).value["emote"] == tags["emote"]
  {
  }

  /** A textual `badges` tag is replaced, under the same key, by its `,`-separated list. */
  lemma BadgesRule(tags: map<string, TagValue>)
    requires "badges" in tags && tags["badges"].Text?
    requires PostProcess(tags).Some?
    ensures "badges" in PostProcess(tags).value
    ensures PostProcess(tags).value["badges"] == BadgeList(Split(tags["badges"].text, ','))
  {
  }

  /** A `badges` tag that is not text, such as one written without `=`, is left as it was. */
  lemma NonTextBadgesUntouched(tags: map<string, TagValue>)
    requires "badges" in tags && !tags["badges"].Text?
    requires PostProcess(tags).Some?
    ensures "badges" in PostProcess(tags).value
    ensures PostProcess(tags).value["badges"] == tags["badges"]
  {
  }

  /** Every key other than `emote` and `badges` keeps its raw value. */
  lemma OtherTagsUntouched(tags: map<string, TagValue>, k: string)
    requires k != "emote" && k != "badges"
    requires PostProcess(tags).Some?
    ensures k in PostProcess(tags).value <==> k in tags
    ensures k in tags ==> PostProcess(tags).value[k] == tags[k]
  {
  }

  // ---------------------------------------------------------------------------
  // The prefix

  /** The text `/^:[^ ]+ +/` matches: `:`, a token without spaces, a run of spaces, and the rest. */
  predicate PrefixShape(line: string, token: string, gap: string, rest: string) {
    line == [':'] + token + gap + rest &&
    token != [] && ' ' !in token &&
    gap != [] && (forall i :: 0 <= i < |gap| ==> gap[i] == ' ') &&
    (rest == [] || rest[0] != ' ')
  }

  /** A prefix found is the token after `:`; the token and all spaces after it are removed. */
  lemma SplitPrefixSound(line: string)
    requires SplitPrefix(line).Some?
    ensures var (token, rest) := SplitPrefix(line).value;
      |token| + 1 <= |line| - |rest| &&
      PrefixShape(line, token, line[1 + |token|..|line| - |rest|], rest)
  {
    var n := LeadingRun(line[1..], NotSpace);
    var after := line[1 + n..];
    var k := LeadingRun(after, IsSpace);
    assert forall i :: 1 <= i < 1 + n ==> line[i] != ' ' by {
      assert forall i :: 1 <= i < 1 + n ==> line[i] == line[1..][i - 1];
    }
    assert k > 0 by {
      assert after[0] == line[1..][n];
    }
    assert forall i :: 1 + n <= i < 1 + n + k ==> line[i] == ' ' by {
      assert forall i :: 1 + n <= i < 1 + n + k ==> line[i] == after[i - 1 - n];
    }
    assert 1 + n + k < |line| ==> line[1 + n + k] != ' ' by {
      assert 1 + n + k < |line| ==> line[1 + n + k] == after[k];
    }
    PrefixPieces(line, n, k);
  }

  /** The pieces of a line cut after its `:`, its first run of non-spaces and the spaces after it. */
  lemma PrefixPieces(line: string, n: nat, k: nat)
    requires 1 + n + k <= |line| && line[0] == ':' && n > 0 && k > 0
    requires forall i :: 1 <= i < 1 + n ==> line[i] != ' '
    requires forall i :: 1 + n <= i < 1 + n + k ==> line[i] == ' '
    requires 1 + n + k < |line| ==> line[1 + n + k] != ' '
    ensures PrefixShape(line, line[1..1 + n], line[1 + n..1 + n + k], line[1 + n + k..])
  {
    var token, gap, rest := line[1..1 + n], line[1 + n..1 + n + k], line[1 + n + k..];
    assert ' ' !in token by {
      assert forall i :: 0 <= i < n ==> token[i] == line[1 + i];
    }
    assert gap != [] && forall i :: 0 <= i < |gap| ==> gap[i] == ' ' by {
      assert forall i :: 0 <= i < k ==> gap[i] == line[1 + n + i];
    }
    CutThree(line, 1 + n, 1 + n + k);
  }

  /** Every line of that shape has that prefix. */
  lemma SplitPrefixComplete(line: string, token: string, gap: string, rest: string)
    requires PrefixShape(line, token, gap, rest)
    ensures SplitPrefix(line) == Some((token, rest))
  {
    var tail := line[1..];
    assert tail == token + (gap + rest);
    assert LeadingRun(tail, NotSpace) == |token| by {
      assert tail[|token|] == gap[0];
      assert forall i :: 0 <= i < |token| ==> tail[i] == token[i];
      LeadingRunIs(tail, NotSpace, |token|);
    }
    var after := line[1 + |token|..];
    assert after == gap + rest;
    assert LeadingRun(after, IsSpace) == |gap| by {
      assert forall i :: 0 <= i < |gap| ==> after[i] == gap[i];
      assert |gap| < |after| ==> after[|gap|] == rest[0];
      LeadingRunIs(after, IsSpace, |gap|);
    }
    assert line[1..1 + |token|] == token;
    assert line[1 + |token| + |gap|..] == rest;
  }

  predicate AllNickChars(s: string) {
    forall i :: 0 <= i < |s| ==> IsNickChar(s[i])
  }

  /** The prefix grammar `nick [ "!" user "@" host ]`, with `user` non-empty and free of `@`. */
  predicate NickGrammar(prefix: string, nick: string, user: Option<string>, host: Option<string>) {
    AllNickChars(nick) &&
    ((user.None? && host.None? && prefix == nick) ||
     (user.Some? && host.Some? && user.value != [] && '@' !in user.value &&
      NoLineTerminators(host.value) && prefix == nick + ("!" + user.value + "@" + host.value)))
  }

  /** The leading run of nick characters is made of nick characters. */
  lemma NickRun(prefix: string)
    ensures var n := LeadingRun(prefix, IsNickChar); AllNickChars(prefix[..n])
  {
    var n := LeadingRun(prefix, IsNickChar);
    assert forall i :: 0 <= i < n ==> prefix[..n][i] == prefix[i];
  }

  /** What `UserAtHost` accepts is `!`, a non-empty user without `@`, `@`, and a host. */
  lemma UserAtHostSound(s: string)
    requires UserAtHost(s).Some?
    ensures var (user, host) := UserAtHost(s).value;
      s == "!" + user + "@" + host && user != [] && '@' !in user && NoLineTerminators(host)
  {
    var tail := s[1..];
    var a := IndexOf(tail, '@').value;
    assert tail[..a] == s[1..a + 1];
    assert tail == tail[..a] + "@" + tail[a + 1..];
    assert tail[a + 1..] == s[a + 2..];
  }

  /** Every such text is accepted, with that user and host. */
  lemma UserAtHostComplete(s: string, user: string, host: string)
    requires s == "!" + user + "@" + host && user != [] && '@' !in user && NoLineTerminators(host)
    ensures UserAtHost(s) == Some((user, host))
  {
    var tail := s[1..];
    assert IndexOf(tail, '@') == Some(|user|) by {
      assert tail == user + "@" + host;
      assert tail[|user|] == '@';
      assert tail[..|user|] == user;
    }
    assert s[1..|user| + 1] == user by {
      assert forall i :: 0 <= i < |user| ==> s[1 + i] == user[i];
    }
    assert s[|user| + 2..] == host by {
      assert forall i :: 0 <= i < |host| ==> s[|user| + 2 + i] == host[i];
    }
  }

  /** A prefix classified as a nick matches the grammar with the nick, user and host returned. */
  lemma ClassifySound(prefix: string)
    requires ClassifyPrefix(prefix).FromNick?
    ensures var o := ClassifyPrefix(prefix); NickGrammar(prefix, o.nick, o.user, o.host)
  {
    var n := LeadingRun(prefix, IsNickChar);
    if n == |prefix| {
      ClassifyWholeNick(prefix);
    } else {
      ClassifyUserHost(prefix, n);
    }
  }

  /** A prefix made only of nick characters is a nick without user and host. */
  lemma ClassifyWholeNick(prefix: string)
    requires LeadingRun(prefix, IsNickChar) == |prefix|
    ensures ClassifyPrefix(prefix) == FromNick(prefix, None, None)
    ensures NickGrammar(prefix, prefix, None, None)
  {
    NickRun(prefix);
    assert prefix[..|prefix|] == prefix;
  }

  /** After the run of nick characters, an accepted `!user@host` gives a nick with that user and host. */
  lemma ClassifyUserHost(prefix: string, n: nat)
    requires n == LeadingRun(prefix, IsNickChar) && n < |prefix|
    requires UserAtHost(prefix[n..]).Some?
    ensures var (user, host) := UserAtHost(prefix[n..]).value;
      ClassifyPrefix(prefix) == FromNick(prefix[..n], Some(user), Some(host)) &&
      NickGrammar(prefix, prefix[..n], Some(user), Some(host))
  {
    var rest := prefix[n..];
    var user, host := UserAtHost(rest).value.0, UserAtHost(rest).value.1;
    assert AllNickChars(prefix[..n]) by {
      NickRun(prefix);
    }
    assert rest == "!" + user + "@" + host && user != [] && '@' !in user && NoLineTerminators(host) by {
      UserAtHostSound(rest);
    }
    assert prefix == prefix[..n] + rest;
  }

  /** A nick followed by `!` or by nothing is exactly the leading run of nick characters. */
  lemma NickRunEnds(prefix: string, nick: string)
    requires AllNickChars(nick)
    requires |nick| <= |prefix| && prefix[..|nick|] == nick
    requires |nick| < |prefix| ==> prefix[|nick|] == '!'
    ensures LeadingRun(prefix, IsNickChar) == |nick|
  {
    assert forall i :: 0 <= i < |nick| ==> prefix[i] == nick[i];
    assert !IsNickChar('!');
    LeadingRunIs(prefix, IsNickChar, |nick|);
  }

  /** A prefix that matches the grammar is classified with exactly that nick, user and host. */
  lemma ClassifyComplete(prefix: string, nick: string, user: Option<string>, host: Option<string>)
    requires NickGrammar(prefix, nick, user, host)
    ensures ClassifyPrefix(prefix) == FromNick(nick, user, host)
  {
    assert prefix[..|nick|] == nick;
    NickRunEnds(prefix, nick);
    if user.Some? {
      assert prefix[|nick|..] == "!" + user.value + "@" + host.value;
      UserAtHostComplete(prefix[|nick|..], user.value, host.value);
    }
  }

  /**
   * Without a prefix none of `nick`, `user`, `host` and `server` is set; with one,
   * exactly one of `nick` and `server` is; `user` and `host` come together and
   * only with a nick; the nick is set exactly when the prefix matches the
   * grammar, and `server` is otherwise the whole prefix.
   */
  lemma OriginFieldsSpec(prefix: Option<string>)
    ensures var (nick, user, host, server) := OriginFields(prefix);
      (prefix.None? ==> nick.None? && user.None? && host.None? && server.None?) &&
      (prefix.Some? ==> (nick.Some? <==> server.None?)) &&
      (server.Some? ==> server == prefix) &&
      (user.Some? <==> host.Some?) &&
      (user.Some? ==> nick.Some?) &&
      (nick.Some? ==> prefix.Some? && NickGrammar(prefix.value, nick.value, user, host)) &&
      (server.Some? ==> forall n, u, h :: !NickGrammar(server.value, n, u, h))
  {
    if prefix.Some? {
      var p := prefix.value;
      if ClassifyPrefix(p).FromNick? {
        ClassifySound(p);
      } else {
        forall n, u, h ensures !NickGrammar(p, n, u, h) {
          if NickGrammar(p, n, u, h) {
            ClassifyComplete(p, n, u, h);
          }
        }
      }
    }
  }

  /** A message's `nick`, `user`, `host` and `server` are those that go with its prefix. */
  lemma MessageOrigin(line: string, codes: map<string, Reply>)
    requires Parse(line, codes).Parsed?
    ensures var m := Parse(line, codes).msg;
      (m.nick, m.user, m.host, m.server) == OriginFields(m.prefix)
  {
  }

  // ---------------------------------------------------------------------------
  // The command

  /**
   * The command is the leading run of non-spaces; without a space after it the
   * line is left whole, otherwise the token and all spaces after it are removed.
   * An empty line, or one starting with a space, has no command.
   */
  lemma CommandTokenShape(line: string)
    ensures CommandToken(line).None? <==> (line == [] || line[0] == ' ')
    ensures CommandToken(line).Some? ==>
      var (token, rest) := CommandToken(line).value;
      token != [] && ' ' !in token && |token| <= |line| && line[..|token|] == token &&
      (|token| == |line| ==> rest == line) &&
      (|token| < |line| ==>
        |token| < |line| - |rest| && rest == line[|line| - |rest|..] &&
        (forall i :: |token| <= i < |line| - |rest| ==> line[i] == ' ') &&
        (rest == [] || rest[0] != ' '))
  {
    if line != [] && line[0] != ' ' {
      var n := LeadingRun(line, NotSpace);
      var after := line[n..];
      var k := LeadingRun(after, IsSpace);
      assert forall i :: 0 <= i < n ==> line[..n][i] == line[i];
      if n < |line| {
        assert after[0] == line[n];
        assert forall i :: n <= i < n + k ==> line[i] == after[i - n];
        assert n + k < |line| ==> line[n + k] == after[k];
      }
    }
  }

  /** Every line made of a token without spaces, a run of spaces, and a rest not starting with a space has that command. */
  lemma CommandTokenComplete(line: string, token: string, gap: string, rest: string)
    requires line == token + gap + rest
    requires token != [] && ' ' !in token
    requires gap != [] && forall i :: 0 <= i < |gap| ==> gap[i] == ' '
    requires rest == [] || rest[0] != ' '
    ensures CommandToken(line) == Some((token, rest))
  {
    assert line[0] == token[0];
    assert LeadingRun(line, NotSpace) == |token| by {
      assert line[|token|] == gap[0];
      assert forall i :: 0 <= i < |token| ==> line[i] == token[i];
      LeadingRunIs(line, NotSpace, |token|);
    }
    var after := line[|token|..];
    assert after == gap + rest;
    assert LeadingRun(after, IsSpace) == |gap| by {
      assert forall i :: 0 <= i < |gap| ==> after[i] == gap[i];
      assert |gap| < |after| ==> after[|gap|] == rest[0];
      LeadingRunIs(after, IsSpace, |gap|);
    }
    assert line[..|token|] == token;
    assert line[|token| + |gap|..] == rest;
  }

  /**
   * The raw command is a non-empty token without spaces; `command` and
   * `commandType` come from the table when it has the raw command, and are the
   * raw command and `normal` otherwise.
   */
  lemma CommandFields(line: string, codes: map<string, Reply>)
    requires Parse(line, codes).Parsed?
    ensures var m := Parse(line, codes).msg;
      m.rawCommand != [] && ' ' !in m.rawCommand &&
      (m.rawCommand in codes ==>
        m.command == codes[m.rawCommand].name && m.commandType == codes[m.rawCommand].kind) &&
      (m.rawCommand !in codes ==> m.command == m.rawCommand && m.commandType == "normal")
  {
    var body := if line != [] && line[0] == '@' then line[IndexOf(line, ' ').value + 1..] else line;
    var rest := match SplitPrefix(body) case None => body case Some((_, r)) => r;
    CommandTokenShape(rest);
  }

  /**
   * The body stages fail only when, after the prefix, the line is empty or
   * starts with a space, and then with the command-token TypeError.
   */
  lemma BodyThrowsIff(line: string, tags: Option<map<string, TagValue>>, codes: map<string, Reply>)
    ensures ParseBody(line, tags, codes).Parsed? || ParseBody(line, tags, codes) == TypeError(NoCommandToken)
    ensures var rest := match SplitPrefix(line) case None => line case Some((_, r)) => r;
      ParseBody(line, tags, codes).TypeError? <==> (rest == [] || rest[0] == ' ')
  {
    var rest := match SplitPrefix(line) case None => line case Some((_, r)) => r;
    CommandTokenShape(rest);
  }

  // ---------------------------------------------------------------------------
  // The parameters

  /** Without a trailing marker the whole parameter text is split on runs of spaces, untrimmed. */
  lemma ArgsWithoutMarker(line: string)
    requires forall p :: 0 <= p < |line| ==> !IsMarker(line, p)
    ensures ParseArgs(line) == if line == [] then [] else SplitOnSpaceRuns(line)
  {
  }

  /**
   * With the first marker after `before`, the arguments are `before` without its
   * trailing whitespace, split on runs of spaces, followed by the verbatim rest
   * of the line when that is not empty.
   */
  lemma ArgsWithMarker(line: string, before: string, trailing: string)
    requires line == before + ":" + trailing
    requires before == [] || IsWhitespace(before[|before| - 1])
    requires forall p :: 0 <= p < |before| ==> !IsMarker(before, p)
    ensures ParseArgs(line) ==
      (if TrimRight(before) == [] then [] else SplitOnSpaceRuns(TrimRight(before))) +
      (if trailing == [] then [] else [trailing])
  {
    assert Marker(line) == Some(|before|) by {
      MarkersOfPrefix(line, before);
      assert IsMarker(line, |before|);
    }
    assert MiddleAndTrailing(line) == (TrimRight(before), Some(trailing)) by {
      MiddleAndTrailingAt(line, |before|);
      assert line[..|before|] == before;
      assert line[|before| + 1..] == trailing;
    }
  }

  /** Below the length of a prefix of the line, the line and the prefix have the same markers. */
  lemma MarkersOfPrefix(line: string, before: string)
    requires |before| <= |line| && line[..|before|] == before
    ensures forall p :: 0 <= p < |before| ==> (IsMarker(line, p) <==> IsMarker(before, p))
  {
    forall p | 0 <= p < |before| ensures IsMarker(line, p) <==> IsMarker(before, p) {
      assert line[p] == before[p];
      if p > 0 { assert line[p - 1] == before[p - 1]; }
    }
  }

  /** With the first marker at `p`, the middle is `line[..p]` trimmed (the second trim changes nothing). */
  lemma MiddleAndTrailingAt(line: string, p: nat)
    requires Marker(line) == Some(p)
    ensures MiddleAndTrailing(line) == (TrimRight(line[..p]), Some(line[p + 1..]))
  {
    TrimRightIdempotent(line[..p]);
  }

  /** Every marker splits the line so that `ArgsWithMarker` applies: the first one found is such a split. */
  lemma MarkerSplitsLine(line: string)
    requires Marker(line).Some?
    ensures var p := Marker(line).value;
      line == line[..p] + ":" + line[p + 1..] &&
      (p == 0 || IsWhitespace(line[..p][p - 1])) &&
      forall q :: 0 <= q < p ==> !IsMarker(line[..p], q)
  {
    var p := Marker(line).value;
    assert forall q :: 0 <= q < p ==> (IsMarker(line, q) <==> IsMarker(line[..p], q));
    assert line == line[..p] + ":" + line[p + 1..];
  }

  /** The trailing parameter, when non-empty, is the last argument and is the text after the marker. */
  lemma TrailingIsLast(line: string)
    requires Marker(line).Some? && Marker(line).value + 1 < |line|
    ensures ParseArgs(line) != [] && Last(ParseArgs(line)) == line[Marker(line).value + 1..]
  {
  }

  /**
   * A line that is a single token (no space, no marker) keeps the token as the
   * only argument, since the token is removed only when a space follows it.
   */
  lemma BareCommand(token: string, codes: map<string, Reply>)
    requires token != [] && token[0] != '@' && ' ' !in token
    requires forall p :: 0 <= p < |token| ==> !IsMarker(token, p)
    ensures Parse(token, codes).Parsed?
    ensures Parse(token, codes).msg.rawCommand == token
    ensures Parse(token, codes).msg.args == [token]
    ensures Parse(token, codes).msg.prefix == None
  {
    assert SplitPrefix(token) == None by {
      if token[0] == ':' {
        var n := LeadingRun(token[1..], NotSpace);
        assert n == |token| - 1;
      }
    }
    assert LeadingRun(token, NotSpace) == |token|;
    assert token[..|token|] == token;
    assert ' ' !in token[|token|..];
  }

  /**
   * Middle text with trailing spaces and no trailing parameter gives an empty
   * last argument.
   */
  lemma TrailingSpacesGiveEmptyArg(line: string)
    requires line != [] && Last(line) == ' '
    requires forall p :: 0 <= p < |line| ==> !IsMarker(line, p)
    ensures ParseArgs(line) != [] && Last(ParseArgs(line)) == []
  {
    SpaceRunsLast(line);
  }
}
