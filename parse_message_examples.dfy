/**
 * Concrete lines and what `parseMessage` makes of them, each derived from the
 * general properties rather than by unfolding the parser on the literal.
 */
module ParseMessageExamples {
  import opened Wrappers
  import opened JsString
  import opened ParseMessage
  import opened ParseMessageProperties

  /** A bare command keeps itself as its only argument. */
  lemma PingBare()
    ensures Parse("PING", map[]).Parsed?
    ensures Parse("PING", map[]).msg.args == ["PING"]
  {
    BareCommand("PING", map[]);
  }

  /** A tag block with no space after it is the malformed sentinel. */
  lemma MalformedTagBlock()
    ensures Parse("@malformedtagnospace", map[]) == Malformed
  {
    var line := "@malformedtagnospace";
    assert forall i :: 0 <= i < |line| ==> line[i] != ' ';
    MalformedIff(line, map[]);
  }

  lemma PingCommand()
    ensures CommandToken("PING :tmi.twitch.tv") == Some(("PING", ":tmi.twitch.tv"))
  {
    CommandTokenComplete("PING :tmi.twitch.tv", "PING", " ", ":tmi.twitch.tv");
  }

  lemma PingArgs()
    ensures ParseArgs(":tmi.twitch.tv") == ["tmi.twitch.tv"]
  {
    var params := ":tmi.twitch.tv";
    var trailing := params[1..];
    assert params == [] + ":" + trailing;
    ArgsWithMarker(params, [], trailing);
  }

  /** A keep-alive with a trailing parameter. */
  lemma PingTrailing()
    ensures Parse("PING :tmi.twitch.tv", map[]).Parsed?
    ensures Parse("PING :tmi.twitch.tv", map[]).msg.args == ["tmi.twitch.tv"]
  {
    PingCommand();
    PingArgs();
    NoTagBlock("PING :tmi.twitch.tv", map[]);
  }

  lemma ServerSplit()
    ensures SplitPrefix(":irc.example.com 001 nick :Welcome") == Some(("irc.example.com", "001 nick :Welcome"))
  {
    var line, token, rest := ":irc.example.com 001 nick :Welcome", "irc.example.com", "001 nick :Welcome";
    assert line == [':'] + token + " " + rest;
    SplitPrefixComplete(line, token, " ", rest);
  }

  lemma ServerClassified()
    ensures ClassifyPrefix("irc.example.com") == FromServer("irc.example.com")
  {
    var prefix := "irc.example.com";
    assert IsNickChar(prefix[0]) && IsNickChar(prefix[1]) && IsNickChar(prefix[2]);
    assert !IsNickChar(prefix[3]);
    LeadingRunIs(prefix, IsNickChar, 3);
  }

  lemma ServerCommand()
    ensures CommandToken("001 nick :Welcome") == Some(("001", "nick :Welcome"))
  {
    CommandTokenComplete("001 nick :Welcome", "001", " ", "nick :Welcome");
  }

  lemma ServerArgs()
    ensures ParseArgs("nick :Welcome") == ["nick", "Welcome"]
  {
    var middle, trailing := "nick", "Welcome";
    var before := middle + " ";
    assert SplitOnSpaceRuns(middle) == [middle] by {
      assert forall i :: 0 <= i < |middle| ==> middle[i] != ' ';
    }
    assert TrimRight(before) == middle by {
      assert before[..|before| - 1] == middle;
      assert !IsWhitespace(middle[3]);
    }
    assert forall p :: 0 <= p < |before| ==> before[p] != ':';
    assert before + ":" + trailing == "nick :Welcome";
    ArgsWithMarker("nick :Welcome", before, trailing);
  }

  /** A numeric reply from a server: the prefix is not a nick, so it is the server. */
  lemma ServerPrefix()
    ensures Parse(":irc.example.com 001 nick :Welcome", map[]).Parsed?
    ensures var m := Parse(":irc.example.com 001 nick :Welcome", map[]).msg;
      m.prefix == Some("irc.example.com") && m.server == m.prefix && m.nick == None &&
      m.user == None && m.host == None && m.rawCommand == "001" && m.args == ["nick", "Welcome"]
  {
    ServerSplit();
    ServerClassified();
    ServerCommand();
    ServerArgs();
    NoTagBlock(":irc.example.com 001 nick :Welcome", map[]);
  }
}
