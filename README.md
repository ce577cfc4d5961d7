# parseMessage, modelled in Dafny

`parseMessage(line, stripColors)` in `lib/parse_message.js` takes one IRC line,
already framed, and builds a message record from it. It works as a left-to-right
pipeline:

1. **Optional colour stripping.**
2. **Optional IRCv3.2 message-tag block.** The block is `@` followed by `;`-separated `key=value` tags, ending at the first space. Two Twitch rules rewrite it: `emotes` also yields an `emote` map, and `badges` becomes a list.
3. **Optional prefix.** The prefix `:token` is classified either as `nick[!user@host]` or as a server name.
4. **Command token.** Its canonical name and category are looked up in a command table.
5. **Parameters.** They are split into the middle parameters and one trailing parameter, which starts at the first `:` that begins the text or follows whitespace.

The project has these files:

- `wrappers.dfy`: `Option`, which stands for the JavaScript fields that can be `undefined`.
- `js_string.dfy`: the JavaScript string built-ins the parser uses, stated exactly. These are `indexOf`, `split` on a character, `split(/ +/)`, `replace(/-/g, '_')`, `trimRight`, and the regular-expression classes `\s` and "line terminator". Each comes with its properties, for example that `split` and `join` are inverse to each other.
- `js_object.dfy`: an object filled by a loop of assignments, where the last assignment to a key wins.
- `parse_message.dfy`: the datatypes and the pipeline, written twice.
  - As functions, one per stage: `ParseTags`, `SplitPrefix`, `ClassifyPrefix`, `CommandToken` and `ParseArgs`, composed by `ParseBody` and `Parse`. These serve as the specification.
  - As the method `ParseMessage` and the methods it calls. They build the result step by step in the source's order, including its two `for` loops, and are proved equal to `Parse`.
- `parse_message_properties.dfy`: what the parser promises, proved of `Parse` and its stages. Each stage is checked against an independent description of the text it accepts.
- `parse_message_examples.dfy`: some concrete lines and their results.

The result is the datatype `Outcome`, which has three cases:

- `Malformed` stands for the `null` the source returns when a tag block has no space after it.
- `Parsed(msg)` holds the message record.
- `TypeError(site)` covers the two inputs on which the source throws:
  - an emote group without `:`, because `parts[1]` is then undefined;
  - a line that is empty, or starts with a space, after the tag block and prefix are removed. The command pattern then does not match, and `match[1]` throws.

The parser is meant to fail only through the malformed sentinel. The code, however, throws in the two cases above, and the model follows the code. So an empty line throws (`ParseMessageProperties.BodyThrowsIff`); it does not produce an empty command.

The regular expression `/(.*?)(?:^:|\s+:)(.*)/` at line 104 puts into its first group the text before the whitespace run that ends at the first marker. That text already has no trailing whitespace, so the `trimRight` at line 105 changes nothing (`ParseMessageProperties.MiddleAndTrailingAt`). The model still writes the trim out.

## Model

| member | source | states |
|---|---|---|
| JsString.LeadingRun | lib/parse_message.js:72 | the leading run of a character class, as matched by `[^ ]+`, ` +` or a class followed by `*`, is a length within the string; every character before it is in the class and the next one, if any, is not |
| JsString.LeadingRunIs | lib/parse_message.js:72 | a length with every character before it in the class, and the next one outside it, is the leading run |
| JsString.IndexOf | lib/parse_message.js:26 | `indexOf` returns `None` (-1) exactly when the character is absent; otherwise it gives the first position holding the character |
| JsString.Split | lib/parse_message.js:34 | `split` on one character gives at least one piece, and no piece holds the separator; a string without the separator gives itself; a string with it gives at least two pieces |
| JsString.SplitJoin | lib/parse_message.js:34 | joining the pieces of `split` with the separator gives back the string |
| JsString.JoinSplit | lib/parse_message.js:34 | splitting the join of separator-free pieces gives back the pieces |
| JsString.SplitAfter | lib/parse_message.js:41 | when the string is `pre`, the separator, and `rest`, with no separator in `pre`, the pieces are `pre` followed by the pieces of `rest` |
| JsString.SplitFirst | lib/parse_message.js:41 | the first piece is the text before the first separator |
| JsString.SplitOnSpaceRuns | lib/parse_message.js:113 | `split(/ +/)`: gives at least one piece, even for the empty string. What the pieces are is stated by `JsString.SpaceRunsJoinCollapsed`, `JsString.SpaceRunsHaveNoSpaces`, `JsString.SpaceRunsFirst`, `JsString.SpaceRunsInterior` and `JsString.SpaceRunsLast` |
| JsString.SpaceRunsHaveNoSpaces | lib/parse_message.js:113 | no piece of `split(/ +/)` holds a space |
| JsString.SpaceRunsStep | lib/parse_message.js:113 | unfolding helper: one step of the definition of `split(/ +/)`, cutting at the first space and skipping the whole space run there |
| JsString.SpaceRunEnd | lib/parse_message.js:113 | a space run starts at the first space; it ends before a non-space or at the end of the string |
| JsString.SpaceRunsFirst | lib/parse_message.js:113 | the first piece is non-empty when the string starts with a non-space |
| JsString.SpaceRunsInterior | lib/parse_message.js:113 | every piece except the first and the last is non-empty |
| JsString.SpaceRunsLast | lib/parse_message.js:113 | the last piece is empty exactly when the string ends with a space |
| JsString.SpaceRunsJoin | lib/parse_message.js:113 | in a string with no two adjacent spaces, joining the pieces with single spaces gives back the string; follows from `JsString.SpaceRunsJoinCollapsed` |
| JsString.CollapseSingleSpaced | lib/parse_message.js:113 | collapsing space runs leaves a string with no two adjacent spaces unchanged |
| JsString.CollapseSpaces | lib/parse_message.js:113 | an independent description of what `split(/ +/)` keeps: the string with every maximal run of spaces shortened to one space; related to the split by `JsString.SpaceRunsJoinCollapsed` |
| JsString.SpaceRunsJoinCollapsed | lib/parse_message.js:113 | for every string, joining the pieces of `split(/ +/)` with single spaces gives the string with each run of spaces collapsed to one space, so no character other than the extra spaces is lost |
| JsString.CollapseNoSpacePrefix | lib/parse_message.js:113 | text without spaces passes through the collapse unchanged, in front of whatever follows |
| JsString.CollapseRun | lib/parse_message.js:113 | a leading run of spaces collapses to exactly one space |
| JsString.CollapseStep | lib/parse_message.js:113 | text without spaces followed by a run of spaces collapses to that text, one space, and the collapse of the rest |
| JsString.CollapseAtFirstRun | lib/parse_message.js:113 | collapsing keeps the text before the first space run and turns that run into one space |
| JsString.ReplaceAll | lib/parse_message.js:45 | `replace(/-/g, '_')` keeps the length, changes every `-` to `_`, and leaves every other character as it was |
| JsString.TrimRight | lib/parse_message.js:105 | `trimRight` gives a prefix of the string that does not end in whitespace; everything it drops is whitespace |
| JsString.TrimRightIdempotent | lib/parse_message.js:104-105 | trimming twice is the same as trimming once |
| JsObject.FromAssignments | lib/parse_message.js:37-46 | the object made by assigning the pairs in order, starting from `{}`; characterised by `JsObject.FromAssignmentsKeys` and `JsObject.LastAssignmentWins` |
| JsObject.AssignOneMore | lib/parse_message.js:45 | loop helper: one more assignment updates the object at the assigned key; used by the two loops |
| JsObject.FromAssignmentsKeys | lib/parse_message.js:37-46 | the object's keys are exactly the assigned keys |
| JsObject.LastAssignmentWins | lib/parse_message.js:45 | a key holds the value of its last assignment |
| ParseMessage.TagPair | lib/parse_message.js:40-45 | one tag as a key and a value: `pair[0]` with `-` replaced, and `pair[1]`, or `true` when that is absent or empty; characterised by `ParseMessageProperties.TagWithEquals` and `ParseMessageProperties.TagWithoutEquals` |
| ParseMessage.EmotePair | lib/parse_message.js:53-54 | one emote group as an id and its range list; characterised by `ParseMessageProperties.EmoteGroup` |
| ParseMessage.PostProcess | lib/parse_message.js:48-62 | the `emotes` and `badges` rules on the raw tag map; characterised by `ParseMessageProperties.EmotesRule`, `ParseMessageProperties.NoEmotesText`, `ParseMessageProperties.BadgesRule`, `ParseMessageProperties.OtherTagsUntouched` and `ParseMessageProperties.PostProcessKeys` |
| ParseMessage.ParseTags | lib/parse_message.js:34-62 | the tag map of a tag block; characterised by `ParseMessageProperties.RawTagKeys`, `ParseMessageProperties.LaterTagWins` and `ParseMessageProperties.NoHyphenInTagKeys` |
| ParseMessage.SplitPrefix | lib/parse_message.js:72-75 | the prefix pattern `^:([^ ]+) +` and its removal; characterised by `ParseMessageProperties.SplitPrefixSound` and `ParseMessageProperties.SplitPrefixComplete` |
| ParseMessage.UserAtHost | lib/parse_message.js:76 | the optional group `!([^@]+)@(.*)` of the nick pattern; characterised by `ParseMessageProperties.UserAtHostSound` and `ParseMessageProperties.UserAtHostComplete` |
| ParseMessage.ClassifyPrefix | lib/parse_message.js:76-84 | the nick pattern tried on the prefix, falling back to a server name; characterised by `ParseMessageProperties.ClassifySound`, `ParseMessageProperties.ClassifyComplete` and `ParseMessageProperties.OriginFieldsSpec` |
| ParseMessage.CommandToken | lib/parse_message.js:88-92 | the command pattern `^([^ ]+) *` and the removal `^[^ ]+ +`; characterised by `ParseMessageProperties.CommandTokenShape` and `ParseMessageProperties.CommandTokenComplete` |
| ParseMessage.MarkerFrom | lib/parse_message.js:103 | the marker search finds the first `:` that begins the text or follows whitespace, and reports none exactly when there is no such `:` |
| ParseMessage.MiddleAndTrailing | lib/parse_message.js:103-110 | the marker search, the pattern at line 104 with its `trimRight`, and the fallback to the whole text; characterised by `ParseMessageProperties.MiddleAndTrailingAt` and `ParseMessageProperties.MarkerSplitsLine` |
| ParseMessage.ParseArgs | lib/parse_message.js:112-116 | the argument list from the middle and trailing parts; characterised by `ParseMessageProperties.ArgsWithMarker`, `ParseMessageProperties.ArgsWithoutMarker` and `ParseMessageProperties.TrailingIsLast` |
| ParseMessage.ParseBody | lib/parse_message.js:72-116 | prefix, command and parameters of the line after the tag block; characterised by `ParseMessageProperties.MessageOrigin`, `ParseMessageProperties.CommandFields` and `ParseMessageProperties.BodyThrowsIff` |
| ParseMessage.Parse | lib/parse_message.js:13-119 | the whole parser as a function; characterised by `ParseMessageProperties.MalformedIff`, `ParseMessageProperties.TagBlockThenBody`, `ParseMessageProperties.NoTagBlock` and `ParseMessageProperties.TagsFromBlock`, and implemented step by step by `ParseMessage.ParseMessage` |
| ParseMessage.TagStep | lib/parse_message.js:37-46 | loop helper: one more turn of the tag loop assigns the normalised key of the next tag its value, `true` when it has none |
| ParseMessage.AssignTags | lib/parse_message.js:37-46 | the tag loop builds the object of the tags' normalised keys and their values, with later tags winning |
| ParseMessage.EmoteStep | lib/parse_message.js:52-55 | one more turn of the emote loop, on a group holding `:`, assigns the group's id its `,`-separated ranges |
| ParseMessage.AssignEmotes | lib/parse_message.js:52-55 | the emote loop finishes exactly when every group holds `:`, and then builds the map of ids to range lists with later groups winning; otherwise it throws |
| ParseMessage.ReadTags | lib/parse_message.js:34-62 | the tag stage, step by step, equals the tag-map specification, including the failure when an emote group has no `:` |
| ParseMessage.ReadArgs | lib/parse_message.js:99-116 | the parameter stage, step by step, equals the specification of the argument list |
| ParseMessage.ReadBody | lib/parse_message.js:72-116 | the prefix, command and parameter stages, step by step, equal the body specification, including the throw when there is no command token |
| ParseMessage.ParseMessage | lib/parse_message.js:13-119 | the whole function, on the line after any colour stripping, equals the specification `Parse` |
| ParseMessageProperties.MalformedIff | lib/parse_message.js:25-31 | the result is `null` exactly when the line starts with `@` and holds no space |
| ParseMessageProperties.TagBlockThenBody | lib/parse_message.js:25-68 | on `@block rest`, where `block` has no space, the tags are those of `block` and exactly one space is consumed; the whole of `rest` is parsed as the body, whatever it starts with |
| ParseMessageProperties.NoTagBlock | lib/parse_message.js:25 | a line not starting with `@` has no tags and is parsed as the body |
| ParseMessageProperties.TagWithEquals | lib/parse_message.js:41-45 | for `key=value` followed by nothing or by a second `=`: the key is normalised, and the value is the text up to any second `=`, or `true` when that text is empty |
| ParseMessageProperties.TagWithoutEquals | lib/parse_message.js:41-45 | a tag without `=` is its normalised key with the value `true` |
| ParseMessageProperties.RawTagKeys | lib/parse_message.js:34-46 | the raw tag map's keys are exactly the normalised texts before each tag's first `=` |
| ParseMessageProperties.LaterTagWins | lib/parse_message.js:37-46 | a key holds the value of the last tag with that normalised key |
| ParseMessageProperties.TagsFromBlock | lib/parse_message.js:25-34 | a message with tags came from a line starting with `@`; its tags are those of the text between `@` and the first space |
| ParseMessageProperties.NoHyphenInTagKeys | lib/parse_message.js:45 | no key of a tag map contains `-` |
| ParseMessageProperties.NoHyphenInMessageTags | lib/parse_message.js:45 | no key of a returned message's tags contains `-` |
| ParseMessageProperties.PostProcessKeys | lib/parse_message.js:48-62 | the emote and badge rules add at most the key `emote` |
| ParseMessageProperties.EmotesRule | lib/parse_message.js:48-57 | a textual `emotes` tag throws exactly when some `/` group lacks `:`; otherwise it adds `emote`, built group by group, and `emotes` keeps its raw text |
| ParseMessageProperties.EmoteGroup | lib/parse_message.js:53-54 | the group `id:ranges`, followed by nothing or by a second `:`, maps `id` to `ranges` split on `,`, and any second `:` is dropped |
| ParseMessageProperties.NoEmotesText | lib/parse_message.js:48 | without a textual `emotes` tag nothing throws, and `emote` is left as it was |
| ParseMessageProperties.BadgesRule | lib/parse_message.js:59-62 | a textual `badges` tag is replaced, under the same key, by its `,`-separated list |
| ParseMessageProperties.NonTextBadgesUntouched | lib/parse_message.js:59-62 | a `badges` tag that is not text, such as one written without `=`, keeps its value under `badges` |
| ParseMessageProperties.OtherTagsUntouched | lib/parse_message.js:48-62 | every key other than `emote` and `badges` keeps its raw presence and value |
| ParseMessageProperties.SplitPrefixSound | lib/parse_message.js:72-75 | a prefix found means the line is `:`, the prefix (non-empty, no spaces), a non-empty run of spaces, and the rest; the rest does not start with a space |
| ParseMessageProperties.PrefixPieces | lib/parse_message.js:72-75 | cutting a line after its `:`, a run of non-spaces and the non-empty run of spaces after it gives the shape that the prefix pattern accepts |
| ParseMessageProperties.SplitPrefixComplete | lib/parse_message.js:72-75 | every line of that shape has that prefix and that rest |
| ParseMessageProperties.NickRun | lib/parse_message.js:76 | the leading run of nick characters consists of nick characters |
| ParseMessageProperties.UserAtHostSound | lib/parse_message.js:76 | what the `!user@host` group accepts is `!`, then a non-empty user without `@`, then `@`, then a host without line terminators |
| ParseMessageProperties.UserAtHostComplete | lib/parse_message.js:76 | every text of that shape is accepted with that user and host |
| ParseMessageProperties.ClassifySound | lib/parse_message.js:76-81 | a prefix classified as a nick matches the grammar `nick [!user@host]` with the nick, user and host returned |
| ParseMessageProperties.ClassifyWholeNick | lib/parse_message.js:76-81 | a prefix made only of nick characters is a nick without user and host, and matches the grammar that way |
| ParseMessageProperties.ClassifyUserHost | lib/parse_message.js:76-81 | a run of nick characters followed by an accepted `!user@host` is a nick with that user and host, and matches the grammar that way |
| ParseMessageProperties.NickRunEnds | lib/parse_message.js:76 | a nick followed by `!`, or by nothing, is exactly the leading run of nick characters |
| ParseMessageProperties.ClassifyComplete | lib/parse_message.js:76-81 | a prefix matching the grammar is classified with exactly that nick, user and host |
| ParseMessageProperties.OriginFieldsSpec | lib/parse_message.js:73-85 | without a prefix, no origin field is set. With one, exactly one of `nick` and `server` is set. `user` and `host` are set together, and only with a nick. `nick` is set exactly when the prefix matches the grammar. Otherwise `server` is the whole prefix |
| ParseMessageProperties.MessageOrigin | lib/parse_message.js:72-85 | a message's `nick`, `user`, `host` and `server` are the ones that go with its prefix |
| ParseMessageProperties.CommandTokenShape | lib/parse_message.js:88-92 | there is no command exactly when the text is empty or starts with a space. Otherwise the command is the non-empty leading run of non-spaces. With no space after it the text is kept whole; otherwise the token and all of the spaces after it are removed |
| ParseMessageProperties.CommandTokenComplete | lib/parse_message.js:88-92 | a token without spaces, a run of spaces, and a rest not starting with a space give that command and that rest |
| ParseMessageProperties.CommandFields | lib/parse_message.js:88-97 | the raw command is a non-empty token without spaces. `command` and `commandType` come from the table when it holds the raw command; otherwise they are the raw command and `normal` |
| ParseMessageProperties.BodyThrowsIff | lib/parse_message.js:88-89 | the body stages fail only with the command-token throw, and exactly when the text after the prefix is empty or starts with a space |
| ParseMessageProperties.ArgsWithoutMarker | lib/parse_message.js:108-113 | without a marker, the whole parameter text is split on runs of spaces, untrimmed; empty text gives no arguments |
| ParseMessageProperties.ArgsWithMarker | lib/parse_message.js:103-116 | with the first marker after `before`, the arguments are `before` without trailing whitespace, split on runs of spaces when non-empty; then the verbatim rest of the text, when non-empty |
| ParseMessageProperties.MarkersOfPrefix | lib/parse_message.js:103 | below the length of a prefix of the text, the text and the prefix have the same markers |
| ParseMessageProperties.MiddleAndTrailingAt | lib/parse_message.js:104-106 | with the first marker at `p`, the middle is the text before `p` with trailing whitespace removed, and the trailing parameter is the text after `p` |
| ParseMessageProperties.MarkerSplitsLine | lib/parse_message.js:103-104 | the first marker splits the text into a part that is empty or ends in whitespace and holds no marker, then `:`, then the rest |
| ParseMessageProperties.TrailingIsLast | lib/parse_message.js:115-116 | a non-empty trailing parameter is the last argument, and it is the text after the marker |
| ParseMessageProperties.BareCommand | lib/parse_message.js:88-92 | a line that is one token, with no space and no marker, has that token as its command and as its only argument |
| ParseMessageProperties.TrailingSpacesGiveEmptyArg | lib/parse_message.js:112-113 | middle text that ends in a space, with no trailing parameter, gives an empty last argument |
| ParseMessageExamples.PingBare | lib/parse_message.js:88-113 | `PING` gives the arguments `["PING"]` |
| ParseMessageExamples.MalformedTagBlock | lib/parse_message.js:25-31 | `@malformedtagnospace` gives `null` |
| ParseMessageExamples.PingCommand | lib/parse_message.js:88-92 | the command of `PING :tmi.twitch.tv` is `PING` |
| ParseMessageExamples.PingArgs | lib/parse_message.js:103-116 | `:tmi.twitch.tv` gives the arguments `["tmi.twitch.tv"]` |
| ParseMessageExamples.PingTrailing | lib/parse_message.js:13-119 | `PING :tmi.twitch.tv` gives the arguments `["tmi.twitch.tv"]` |
| ParseMessageExamples.ServerSplit | lib/parse_message.js:72-75 | the prefix of `:irc.example.com 001 nick :Welcome` is `irc.example.com` |
| ParseMessageExamples.ServerClassified | lib/parse_message.js:76-84 | `irc.example.com` is a server name |
| ParseMessageExamples.ServerCommand | lib/parse_message.js:88-92 | the command of `001 nick :Welcome` is `001` |
| ParseMessageExamples.ServerArgs | lib/parse_message.js:103-116 | `nick :Welcome` gives the arguments `["nick", "Welcome"]` |
| ParseMessageExamples.ServerPrefix | lib/parse_message.js:13-119 | `:irc.example.com 001 nick :Welcome` has the server `irc.example.com`, no nick, user or host, the command `001`, and the arguments `["nick", "Welcome"]` |

## Left out

- Colour stripping (`ircColors.stripColorsAndStyle`, lines 1 and 18) is a foreign library. It is the parameter `strip: string -> string` of `ParseMessage`, and nothing is assumed about it.
- The command table `./codes` (lines 2 and 94) is not part of this model. It is the parameter `codes: map<string, Reply>`. JavaScript prototype keys are not modelled: a raw command such as `constructor` is not found in the table, and a tag key `__proto__` behaves like any other key.
- ParseMessage: requires that the line it parses has no JavaScript line terminator: CR, LF, U+2028 or U+2029. Framing before the parser removes only CR and LF. U+2028 and U+2029 are assumed absent, and nothing upstream removes them. On a line that holds one, the source differs from the model. `.` in the regular expression at line 104 does not match a line terminator, while `\s` does. So the middle parameters lose everything up to and including the last line terminator before the whitespace run that ends at the marker: parameters `a`, U+2028, `b :c` give `["b", "c"]`. The trailing parameter also ends at the first line terminator after the marker. The prefix grammar at line 76 does model `.` exactly, and a host holding a line terminator makes the prefix a server name there.
- Positions are counted in Unicode characters, not UTF-16 code units. Every delimiter lies in the Basic Multilingual Plane, so both give the same pieces.
- The implicitly global variable `position` (line 64) leaks outside the function; the model does not represent it. It does not affect the result.
- IRCv3 tag-value unescaping is not done, because the source does not do it.
- There is no serialiser, so there is no round trip from a message back to a line.
