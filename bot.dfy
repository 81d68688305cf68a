/**
 * The chat front end's own logic: recognising a message addressed to the bot,
 * splitting it into a command and arguments, normalising keyword lists, and
 * the values the create and update conversations hand to the store.
 */
module Bot {
  import opened Wrappers
  import opened Text
  import opened Profiles

  // ---------------------------------------------------------------------------
  // Mentions
  // ---------------------------------------------------------------------------

  /** `<@id>`: the plain form of a mention of the bot; the digits between the brackets spell its id. */
  function PlainMention(botId: nat): (r: string)
    ensures |r| >= 4 && r[..2] == "<@" && r[|r| - 1] == '>'
    ensures forall i :: 2 <= i < |r| - 1 ==> IsDigit(r[i])
    ensures DigitsValue(r[2..|r| - 1]) == botId
  {
    var r := "<@" + Decimal(botId) + ">";
    assert r[2..|r| - 1] == Decimal(botId);
    r
  }

  /** `<@!id>`: the nickname form of a mention of the bot; the digits between `!` and `>` spell its id. */
  function NickMention(botId: nat): (r: string)
    ensures |r| >= 5 && r[..3] == "<@!" && r[|r| - 1] == '>'
    ensures forall i :: 3 <= i < |r| - 1 ==> IsDigit(r[i])
    ensures DigitsValue(r[3..|r| - 1]) == botId
  {
    var r := "<@!" + Decimal(botId) + ">";
    assert r[3..|r| - 1] == Decimal(botId);
    r
  }

  /**
   * The command text of a message that, once stripped, starts with a mention
   * of the bot (the plain form is tried first): what follows the mention,
   * stripped. None for any other message.
   */
  function MentionCommand(content: string, botId: nat): (r: Option<string>)
    ensures r.Some? <==>
      StartsWith(Strip(content), PlainMention(botId)) || StartsWith(Strip(content), NickMention(botId))
    ensures r.Some? ==> IsStripped(r.value)
  {
    var text := Strip(content);
    var plain := PlainMention(botId);
    var nick := NickMention(botId);
    if StartsWith(text, plain) then Some(Strip(text[|plain|..]))
    else if StartsWith(text, nick) then Some(Strip(text[|nick|..]))
    else None
  }

  /** No text starts with both forms, so the order in which they are tried does not matter. */
  lemma MentionFormsExclusive(text: string, botId: nat)
    ensures !(StartsWith(text, PlainMention(botId)) && StartsWith(text, NickMention(botId)))
  {
    var plain := PlainMention(botId);
    var nick := NickMention(botId);
    assert plain[2] == Decimal(botId)[0];
    assert IsDigit(plain[2]) && nick[2] == '!';
    if StartsWith(text, plain) && |nick| <= |text| {
      assert text[..|plain|][2] == text[2] == text[..|nick|][2];
      assert text[..|nick|] != nick;
    }
  }

  /** The command after whichever mention form the stripped message starts with. */
  lemma MentionCommandAfter(content: string, botId: nat, lead: string)
    requires lead == PlainMention(botId) || lead == NickMention(botId)
    requires StartsWith(Strip(content), lead)
    ensures MentionCommand(content, botId) == Some(Strip(Strip(content)[|lead|..]))
  {
    MentionFormsExclusive(Strip(content), botId);
  }

  /** A stripped lead, one space and a stripped command: stripping drops only the space when the command is empty. */
  lemma StripLeadSpaceCommand(lead: string, command: string)
    requires lead != [] && IsStripped(lead) && IsStripped(command)
    ensures Strip(lead + " " + command) == if command == [] then lead else lead + " " + command
  {
    var body := lead + " " + command;
    if command == [] {
      assert TrimLeft(body) == body;
      assert body[..|body| - 1] == lead;
      assert TrimRight(body) == TrimRight(lead) == lead;
    } else {
      assert body[|body| - 1] == command[|command| - 1];
      StripOfStripped(body);
    }
  }

  /** After leading whitespace, a stripped lead, one space and a stripped command, the stripped text is the lead followed by what strips to the command. */
  lemma StripPadLeadCommand(pad: string, lead: string, command: string)
    requires forall i :: 0 <= i < |pad| ==> IsSpace(pad[i])
    requires lead != [] && IsStripped(lead) && IsStripped(command)
    ensures var text := Strip(pad + lead + " " + command);
      StartsWith(text, lead) && Strip(text[|lead|..]) == command
  {
    var body := lead + " " + command;
    assert pad + lead + " " + command == pad + body;
    StripLeadingSpace(pad, body);
    StripLeadSpaceCommand(lead, command);
    if command == [] {
      LeadThenNothing(lead);
    } else {
      LeadThenCommand(lead, command);
    }
  }

  lemma LeadThenNothing(lead: string)
    ensures StartsWith(lead, lead) && Strip(lead[|lead|..]) == []
  {
    assert lead[|lead|..] == [];
  }

  lemma LeadThenCommand(lead: string, command: string)
    requires IsStripped(command)
    ensures var text := lead + " " + command;
      StartsWith(text, lead) && Strip(text[|lead|..]) == command
  {
    var text := lead + " " + command;
    assert text[..|lead|] == lead;
    assert text[|lead|..] == " " + command;
    StripLeadingSpace(" ", command);
    StripOfStripped(command);
  }

  /** A message made of whitespace, a mention, one space and a stripped command yields that command. */
  lemma MentionRoundTrip(pad: string, botId: nat, nick: bool, command: string)
    requires forall i :: 0 <= i < |pad| ==> IsSpace(pad[i])
    requires IsStripped(command)
    ensures var lead := if nick then NickMention(botId) else PlainMention(botId);
      MentionCommand(pad + lead + " " + command, botId) == Some(command)
  {
    var lead := if nick then NickMention(botId) else PlainMention(botId);
    assert lead[0] == '<' && lead[|lead| - 1] == '>';
    StripPadLeadCommand(pad, lead, command);
    MentionCommandAfter(pad + lead + " " + command, botId, lead);
  }

  // ---------------------------------------------------------------------------
  // Keyword lists
  // ---------------------------------------------------------------------------

  function LowerEach(ts: seq<string>): (r: seq<string>)
    ensures |r| == |ts| && forall i :: 0 <= i < |ts| ==> r[i] == Lower(ts[i])
  {
    seq(|ts|, i requires 0 <= i < |ts| => Lower(ts[i]))
  }

  /** The comma-separated keyword list a user typed, as stored: terms trimmed and lower-cased, blanks dropped. */
  function NormalizeKeywords(raw: string): string {
    JoinWith(",", LowerEach(CommaTerms(raw)))
  }

  /** A stored keyword term: non-empty, trimmed, lower-case, without a comma. */
  predicate IsKeywordTerm(t: string) {
    t != [] && IsStripped(t) && IsLowerCase(t) && ',' !in t
  }

  /** A keyword list as the bot stores it: normalising it changes nothing. */
  predicate IsNormalized(keywords: string) {
    NormalizeKeywords(keywords) == keywords
  }

  lemma LowerTermIsKeywordTerm(t: string)
    requires t != [] && IsStripped(t) && ',' !in t
    ensures IsKeywordTerm(Lower(t))
  {
    LowerKeepsStripped(t);
    LowerIsLowerCase(t);
    forall i | 0 <= i < |t|
      ensures Lower(t)[i] != ','
    {
      assert t[i] != ',';
    }
  }

  /**
   * The normalised list is made of keyword terms, and the store, reading it
   * back with its own comma split, gets exactly those terms.
   */
  lemma NormalizeReadBack(raw: string)
    ensures var ts := LowerEach(CommaTerms(raw));
      (forall i :: 0 <= i < |ts| ==> IsKeywordTerm(ts[i]))
      && CommaTerms(NormalizeKeywords(raw)) == ts
  {
    var ts := LowerEach(CommaTerms(raw));
    CommaTermsOccur(raw);
    forall i | 0 <= i < |ts| ensures IsKeywordTerm(ts[i]) {
      LowerTermIsKeywordTerm(CommaTerms(raw)[i]);
    }
    CommaTermsOfJoin(ts);
  }

  /** Normalising twice is normalising once. */
  lemma NormalizeIdempotent(raw: string)
    ensures IsNormalized(NormalizeKeywords(raw))
  {
    var ts := LowerEach(CommaTerms(raw));
    NormalizeReadBack(raw);
    forall i | 0 <= i < |ts| ensures Lower(ts[i]) == ts[i] {
      LowerOfLowerCase(ts[i]);
    }
    assert LowerEach(ts) == ts;
  }

  // ---------------------------------------------------------------------------
  // Commands
  // ---------------------------------------------------------------------------

  /** A command: its lower-cased first word and the words after it. */
  datatype Command = Command(name: string, args: seq<string>)

  /** Splits command text on whitespace; None when there are no words. */
  function ParseCommand(text: string): (r: Option<Command>)
    ensures r.None? <==> SplitWs(text) == []
    ensures r.Some? ==> r.value.name != [] && IsLowerCase(r.value.name) && IsTokens(r.value.args)
  {
    var parts := SplitWs(text);
    if parts == [] then None else Some(Command(Lower(parts[0]), parts[1..]))
  }

  /** Words joined by single spaces parse back into the (lower-cased) first word and the rest. */
  lemma ParseCommandRoundTrip(name: string, args: seq<string>)
    requires IsTokens([name] + args)
    ensures ParseCommand(JoinWith(" ", [name] + args)) == Some(Command(Lower(name), args))
  {
    SplitWsJoinRoundTrip([name] + args);
    assert ([name] + args)[1..] == args;
  }

  /**
   * However the words are laid out (leading and trailing whitespace, runs of
   * several whitespace characters between them), the command is the
   * lower-cased first word and the arguments are the words after it.
   */
  lemma ParseCommandLayout(gaps: seq<string>, name: string, args: seq<string>, tail: string)
    requires IsLayout(gaps, [name] + args, tail)
    ensures ParseCommand(Layout(gaps, [name] + args, tail)) == Some(Command(Lower(name), args))
  {
    SplitWsLayout(gaps, [name] + args, tail);
    assert ([name] + args)[1..] == args;
  }

  /** The search keyword: the argument words joined by one space, stripped and lower-cased. */
  function SearchKeyword(args: seq<string>): (keyword: string)
    ensures IsStripped(keyword) && IsLowerCase(keyword)
    ensures IsTokens(args) && args != [] ==> keyword != [] && keyword == Lower(JoinWith(" ", args))
  {
    var joined := JoinWith(" ", args);
    LowerKeepsStripped(Strip(joined));
    LowerIsLowerCase(Strip(joined));
    if IsTokens(args) && args != [] then
      JoinTokensStripped(args);
      StripOfStripped(joined);
      Lower(Strip(joined))
    else
      Lower(Strip(joined))
  }

  const CreateProfileCommand: string := "create-profile"
  const UpdateProfileCommand: string := "update-profile"
  const SearchCommand: string := "search"
  /** The only channel where searches are answered. */
  const SearchChannel: string := "search-user"

  /** What the bot does with a message. */
  datatype Action =
    | Ignore
    | StartCreate
    | StartUpdate
    | WrongChannel
    | SearchUsage
    | RunSearch(keyword: string)
    | UnknownCommand

  /**
   * Dispatches a message: bots and messages not addressed to the bot are
   * ignored, and so is a mention with no command; searches are answered only
   * in the search channel and need at least one argument word.
   */
  function Route(fromBot: bool, content: string, botId: nat, channel: Option<string>): (a: Action)
    ensures a == Ignore <==>
      || fromBot
      || MentionCommand(content, botId).None?
      || ParseCommand(MentionCommand(content, botId).value).None?
    ensures a.RunSearch? ==>
      && channel == Some(SearchChannel)
      && a.keyword != [] && IsStripped(a.keyword) && IsLowerCase(a.keyword)
    ensures a == SearchUsage ==> channel == Some(SearchChannel)
  {
    if fromBot then Ignore
    else match MentionCommand(content, botId)
      case None => Ignore
      case Some(text) =>
        match ParseCommand(text)
        case None => Ignore
        case Some(Command(name, args)) =>
          if name == CreateProfileCommand then StartCreate
          else if name == UpdateProfileCommand then StartUpdate
          else if name == SearchCommand then
            if channel != Some(SearchChannel) then WrongChannel
            else if args == [] then SearchUsage
            else RunSearch(SearchKeyword(args))
          else UnknownCommand
  }

  /** How a message whose command parses as `search` with the given words is routed. */
  lemma RouteSearchCommand(content: string, botId: nat, channel: Option<string>, words: seq<string>)
    requires MentionCommand(content, botId).Some?
    requires ParseCommand(MentionCommand(content, botId).value) == Some(Command(SearchCommand, words))
    ensures Route(false, content, botId, channel)
      == if channel != Some(SearchChannel) then WrongChannel
         else if words == [] then SearchUsage
         else RunSearch(SearchKeyword(words))
  {
  }

  /**
   * How a message whose command parses as anything other than `search` is
   * routed: `create-profile` and `update-profile` start their conversations,
   * and every other command word is answered as unknown.
   */
  lemma RouteCommand(content: string, botId: nat, channel: Option<string>, name: string, args: seq<string>)
    requires MentionCommand(content, botId).Some?
    requires ParseCommand(MentionCommand(content, botId).value) == Some(Command(name, args))
    requires name != SearchCommand
    ensures Route(false, content, botId, channel)
      == if name == CreateProfileCommand then StartCreate
         else if name == UpdateProfileCommand then StartUpdate
         else UnknownCommand
  {
  }

  lemma SearchLineIsTokens(words: seq<string>)
    requires IsTokens(words)
    ensures IsTokens([SearchCommand] + words)
  {
    var line := [SearchCommand] + words;
    forall i | 0 <= i < |line|
      ensures line[i] != [] && NoSpace(line[i])
    {
      if i > 0 {
        assert line[i] == words[i - 1];
      }
    }
  }

  lemma SearchCommandIsLower()
    ensures Lower(SearchCommand) == SearchCommand
  {
    assert IsLowerCase(SearchCommand);
    LowerOfLowerCase(SearchCommand);
  }

  /** The command line `text` after a plain mention and one space is read back as `text`. */
  lemma PlainMentionOf(botId: nat, text: string)
    requires IsStripped(text)
    ensures MentionCommand(PlainMention(botId) + " " + text, botId) == Some(text)
  {
    var noPad: string := [];
    assert noPad + PlainMention(botId) + " " + text == PlainMention(botId) + " " + text;
    MentionRoundTrip(noPad, botId, false, text);
  }

  /**
   * `@bot search w1 w2 ...` is refused outside the search channel, answered
   * with the usage text when there are no words, and otherwise searches for
   * the words joined by single spaces, lower-cased.
   */
  lemma RouteSearch(botId: nat, words: seq<string>, channel: Option<string>)
    requires IsTokens(words)
    ensures Route(false, PlainMention(botId) + " " + JoinWith(" ", [SearchCommand] + words), botId, channel)
      == if channel != Some(SearchChannel) then WrongChannel
         else if words == [] then SearchUsage
         else RunSearch(Lower(JoinWith(" ", words)))
  {
    var text := JoinWith(" ", [SearchCommand] + words);
    SearchLineIsTokens(words);
    JoinTokensStripped([SearchCommand] + words);
    PlainMentionOf(botId, text);
    ParseCommandRoundTrip(SearchCommand, words);
    SearchCommandIsLower();
    RouteSearchCommand(PlainMention(botId) + " " + text, botId, channel, words);
  }

  /** A message that is a mention of the bot in either form and nothing else but whitespace is ignored. */
  lemma RouteBareMention(pad: string, botId: nat, nick: bool, tail: string, channel: Option<string>)
    requires forall i :: 0 <= i < |pad| ==> IsSpace(pad[i])
    requires forall i :: 0 <= i < |tail| ==> IsSpace(tail[i])
    ensures var lead := if nick then NickMention(botId) else PlainMention(botId);
      Route(false, pad + lead + tail, botId, channel) == Ignore
  {
    var lead := if nick then NickMention(botId) else PlainMention(botId);
    BareMentionCommand(pad, botId, lead, tail);
    assert SplitWs([]) == [];
  }

  lemma BareMentionCommand(pad: string, botId: nat, lead: string, tail: string)
    requires lead == PlainMention(botId) || lead == NickMention(botId)
    requires forall i :: 0 <= i < |pad| ==> IsSpace(pad[i])
    requires forall i :: 0 <= i < |tail| ==> IsSpace(tail[i])
    ensures MentionCommand(pad + lead + tail, botId) == Some([])
  {
    MentionIsStripped(botId, lead);
    StripPadded(pad, lead, tail);
    LeadThenNothing(lead);
    MentionCommandAfter(pad + lead + tail, botId, lead);
  }

  lemma MentionIsStripped(botId: nat, lead: string)
    requires lead == PlainMention(botId) || lead == NickMention(botId)
    ensures lead != [] && IsStripped(lead)
  {
    assert lead[0] == '<' && lead[|lead| - 1] == '>';
  }

  // ---------------------------------------------------------------------------
  // Create and update conversations
  // ---------------------------------------------------------------------------

  /**
   * The columns a conversation writes. The company and LinkedIn columns are
   * not among them: every write from the bot sets them to NULL.
   */
  datatype ProfileWrite = ProfileWrite(
    name: Option<string>,
    role: Option<string>,
    description: Option<string>,
    keywords: Option<string>)

  /**
   * `create-profile`: from the three replies (None when the prompt timed out),
   * the write to make, or None when any reply timed out.
   */
  function CreateFlow(nameRole: Option<string>, description: Option<string>, keywords: Option<string>)
    : (w: Option<ProfileWrite>)
    ensures w.Some? <==> nameRole.Some? && description.Some? && keywords.Some?
    ensures w.Some? ==> w.value.name == w.value.role == nameRole && w.value.description == description
    ensures w.Some? ==> w.value.keywords == Some(NormalizeKeywords(keywords.value))
    ensures w.Some? ==> IsNormalized(w.value.keywords.value)
  {
    if nameRole.None? || description.None? || keywords.None? then None
    else
      NormalizeIdempotent(keywords.value);
      Some(ProfileWrite(nameRole, nameRole, description, Some(NormalizeKeywords(keywords.value))))
  }

  /**
   * The keyword list a new profile stores is read back by the search as the
   * terms the user typed, blanks dropped and lower-cased, each a keyword term.
   */
  lemma CreateFlowReadBack(nameRole: string, description: string, keywords: string)
    ensures var w := CreateFlow(Some(nameRole), Some(description), Some(keywords));
      && w.Some? && w.value.keywords.Some?
      && CommaTerms(w.value.keywords.value) == LowerEach(CommaTerms(keywords))
      && forall t :: t in CommaTerms(w.value.keywords.value) ==> IsKeywordTerm(t)
  {
    var ts := LowerEach(CommaTerms(keywords));
    NormalizeReadBack(keywords);
    assert CreateFlow(Some(nameRole), Some(description), Some(keywords)).value.keywords == Some(NormalizeKeywords(keywords));
    forall t | t in ts ensures IsKeywordTerm(t) {
      var i :| 0 <= i < |ts| && ts[i] == t;
    }
  }

  datatype UpdateOutcome = NoProfile | Cancelled | Updated(write: ProfileWrite)

  /** A reply left empty keeps the current value; any other reply replaces it. */
  function KeepIfEmpty(reply: string, current: Option<string>): Option<string> {
    if reply == "" then current else Some(reply)
  }

  /**
   * `update-profile`: from the owner's current row (None when there is none)
   * and the three replies (None when the prompt timed out), what happens.
   * The name reply goes into both name and role; an empty keyword reply
   * keeps the stored list as it is, any other is normalised.
   */
  function UpdateFlow(current: Option<Profile>, newName: Option<string>, newDescription: Option<string>,
                      newKeywords: Option<string>): (o: UpdateOutcome)
    ensures o == NoProfile <==> current.None?
    ensures o == Cancelled <==> current.Some? && (newName.None? || newDescription.None? || newKeywords.None?)
    ensures o.Updated? ==> o.write.name == o.write.role
  {
    if current.None? then NoProfile
    else if newName.None? || newDescription.None? || newKeywords.None? then Cancelled
    else
      var p := current.value;
      var name := KeepIfEmpty(newName.value, p.name);
      var description := KeepIfEmpty(newDescription.value, p.description);
      var keywords := if newKeywords.value == "" then p.keywords else Some(NormalizeKeywords(newKeywords.value));
      Updated(ProfileWrite(name, name, description, keywords))
  }

  /**
   * Each empty reply keeps the current value of its field and every other
   * reply replaces it; keywords typed anew are normalised, kept ones reused as
   * stored. The role is rewritten from the name reply, not kept.
   */
  lemma UpdateMerge(p: Profile, newName: string, newDescription: string, newKeywords: string)
    ensures var o := UpdateFlow(Some(p), Some(newName), Some(newDescription), Some(newKeywords));
      && o.Updated?
      && o.write.name == (if newName == "" then p.name else Some(newName))
      && o.write.role == o.write.name
      && o.write.description == (if newDescription == "" then p.description else Some(newDescription))
      && o.write.keywords == (if newKeywords == "" then p.keywords else Some(NormalizeKeywords(newKeywords)))
  {
  }

  /** An update never leaves a keyword list that a fresh normalisation would change. */
  lemma UpdateKeepsKeywordsNormalized(p: Profile, newName: string, newDescription: string, newKeywords: string)
    requires p.keywords.None? || IsNormalized(p.keywords.value)
    ensures var o := UpdateFlow(Some(p), Some(newName), Some(newDescription), Some(newKeywords));
      o.Updated? && (o.write.keywords.None? || IsNormalized(o.write.keywords.value))
  {
    if newKeywords != "" {
      NormalizeIdempotent(newKeywords);
    }
  }

  /** Replying empty to every prompt writes back the current name (as name and role), description and keywords. */
  lemma UpdateWithEmptyReplies(p: Profile)
    ensures UpdateFlow(Some(p), Some(""), Some(""), Some(""))
      == Updated(ProfileWrite(p.name, p.name, p.description, p.keywords))
  {
  }
}
