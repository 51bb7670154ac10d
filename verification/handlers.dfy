/**
 * The translation commands: where `handle_translation` takes its text from
 * (a replied-to stored message, else the text after the first space of the
 * command, else nothing and the help is shown), and the small string helpers
 * around it.
 */
module Handlers {
  import opened Wrappers
  import opened Layout
  import opened Store

  // ---------------------------------------------------------------------------
  // Whitespace stripping and `extract_command_text`
  // ---------------------------------------------------------------------------

  /** Python's whitespace characters (those for which `str.isspace` holds). */
  predicate IsSpace(c: char)
  {
    ('\t' <= c <= '\r') || ('\U{1C}' <= c <= ' ') || c == '\U{85}' || c == '\U{A0}' ||
    c == '\U{1680}' || ('\U{2000}' <= c <= '\U{200A}') || c == '\U{2028}' || c == '\U{2029}' ||
    c == '\U{202F}' || c == '\U{205F}' || c == '\U{3000}'
  }

  /** The length of the longest all-whitespace prefix. */
  function LeadingSpaces(s: string): (n: nat)
    ensures n <= |s|
    ensures forall i :: 0 <= i < n ==> IsSpace(s[i])
    ensures n < |s| ==> !IsSpace(s[n])
  {
    if s == [] || !IsSpace(s[0]) then 0 else 1 + LeadingSpaces(s[1..])
  }

  /** The length of the longest all-whitespace suffix. */
  function TrailingSpaces(s: string): (n: nat)
    ensures n <= |s|
    ensures forall i :: |s| - n <= i < |s| ==> IsSpace(s[i])
    ensures n < |s| ==> !IsSpace(s[|s| - 1 - n])
  {
    if s == [] || !IsSpace(s[|s| - 1]) then 0 else 1 + TrailingSpaces(s[..|s| - 1])
  }

  /** `s.strip()`: whitespace removed from both ends. */
  function Strip(s: string): (r: string)
    ensures |r| <= |s|
    ensures r == [] || (!IsSpace(r[0]) && !IsSpace(r[|r| - 1]))
    ensures r == [] <==> forall i :: 0 <= i < |s| ==> IsSpace(s[i])
  {
    var rest := s[LeadingSpaces(s)..];
    rest[..|rest| - TrailingSpaces(rest)]
  }

  /** A message entity: where the command token starts and how long it is, in characters. */
  datatype Entity = Entity(offset: nat, length: nat)

  /** `extract_command_text`: the text after the command token, stripped. */
  function ExtractCommandText(text: string, entity: Entity): (r: string)
    ensures r == [] || (!IsSpace(r[0]) && !IsSpace(r[|r| - 1]))
    ensures entity.offset + entity.length >= |text| ==> r == []
  {
    var commandEnd := entity.offset + entity.length;
    Strip(if commandEnd <= |text| then text[commandEnd..] else [])
  }

  /** What `strip` keeps is one contiguous piece of its input, with only whitespace cut off either side. */
  lemma StripBounds(s: string) returns (lo: nat, hi: nat)
    ensures lo <= hi <= |s| && Strip(s) == s[lo..hi]
    ensures forall i :: 0 <= i < lo ==> IsSpace(s[i])
    ensures forall i :: hi <= i < |s| ==> IsSpace(s[i])
  {
    lo := LeadingSpaces(s);
    var rest := s[lo..];
    hi := lo + |rest| - TrailingSpaces(rest);
    assert forall i :: hi <= i < |s| ==> s[i] == rest[i - lo];
  }

  /** Stripping twice is stripping once. */
  lemma StripIdempotent(s: string)
    ensures Strip(Strip(s)) == Strip(s)
  {
    var r := Strip(s);
    if r != [] {
      assert LeadingSpaces(r) == 0;
      assert TrailingSpaces(r) == 0;
      assert r[0..] == r;
    }
  }

  /**
   * `extract_command_text` returns the text that follows the command token
   * with the surrounding whitespace removed, and nothing when the token runs
   * to the end of the text.
   */
  lemma ExtractCommandTextBounds(text: string, entity: Entity) returns (lo: nat, hi: nat)
    requires entity.offset + entity.length <= |text|
    ensures entity.offset + entity.length <= lo <= hi <= |text|
    ensures ExtractCommandText(text, entity) == text[lo..hi]
    ensures forall i :: entity.offset + entity.length <= i < lo ==> IsSpace(text[i])
    ensures forall i :: hi <= i < |text| ==> IsSpace(text[i])
  {
    var commandEnd := entity.offset + entity.length;
    var rest := text[commandEnd..];
    var l, h := StripBounds(rest);
    lo, hi := commandEnd + l, commandEnd + h;
    assert rest[l..h] == text[lo..hi];
    forall i | commandEnd <= i < lo ensures IsSpace(text[i]) {
      assert text[i] == rest[i - commandEnd];
    }
    forall i | hi <= i < |text| ensures IsSpace(text[i]) {
      assert text[i] == rest[i - commandEnd];
    }
  }

  // ---------------------------------------------------------------------------
  // `command_text.split(' ', 1)[1]`
  // ---------------------------------------------------------------------------

  /** The text after the first space character (the suffix may be empty or itself start with spaces). */
  function AfterFirstSpace(s: string): (rest: string)
    requires ' ' in s
    ensures |rest| < |s| && rest == s[|s| - |rest|..]
    ensures s[|s| - |rest| - 1] == ' '
    ensures ' ' !in s[..|s| - |rest| - 1]
  {
    if s[0] == ' ' then s[1..] else AfterFirstSpace(s[1..])
  }

  /** The split is determined by the first space: whatever follows it, further spaces included, is the argument. */
  lemma {:induction false} AfterFirstSpaceOf(prefix: string, rest: string)
    requires ' ' !in prefix
    ensures ' ' in prefix + " " + rest
    ensures AfterFirstSpace(prefix + " " + rest) == rest
  {
    var s := prefix + " " + rest;
    assert s[|prefix|] == ' ';
    if prefix != [] {
      assert s[1..] == prefix[1..] + " " + rest;
      AfterFirstSpaceOf(prefix[1..], rest);
    }
  }

  // ---------------------------------------------------------------------------
  // `handle_translation` and `help_command`
  // ---------------------------------------------------------------------------

  datatype ChatType = Private | Group | Supergroup | Channel

  /** The two help texts: the one for a private chat and the one for every other chat. */
  datatype HelpKind = PrivateHelp | GroupHelp

  /** The help text `help_command` chooses for a chat. */
  function HelpFor(chatType: ChatType): (kind: HelpKind)
    ensures kind == PrivateHelp <==> chatType == Private
  {
    if chatType == Private then PrivateHelp else GroupHelp
  }

  /** The translation function a command passes: `transliterate_to_ua` or `transliterate_to_en`. */
  datatype Direction = ToUa | ToEn

  function Translate(dir: Direction, s: string): string
  {
    match dir
    case ToUa => TransliterateToUa(s)
    case ToEn => TransliterateToEn(s)
  }

  /** The message a command replies to, as its key in the store. */
  datatype ReplyRef = ReplyRef(messageId: int, chatId: int)

  /** A translation command: its full text, the chat it was sent in, and what it replies to. */
  datatype Command = Command(text: string, chatType: ChatType, replyTo: Option<ReplyRef>)

  /**
   * What the handler answers: nothing (no message in the update), a
   * translation, a help text, or the fixed error reply
   * "Sorry, an error occurred during translation.".
   */
  datatype Outcome = NoReply | Reply(text: string) | Help(kind: HelpKind) | Error

  /** The stored text a reply resolves to: present when the replied-to record is found and its text is non-empty. */
  function StoredSource(m: Command, records: seq<Record>): (source: Option<string>)
    ensures m.replyTo.None? ==> source.None?
    ensures source.Some? ==>
              source.value != [] &&
              exists i :: 0 <= i < |records| && records[i].originalText == source.value &&
                          HasKey(records[i], m.replyTo.value.messageId, m.replyTo.value.chatId)
    ensures (m.replyTo.Some? &&
             forall i :: 0 <= i < |records| ==>
               !HasKey(records[i], m.replyTo.value.messageId, m.replyTo.value.chatId))
            ==> source.None?
  {
    match m.replyTo
    case None => None
    case Some(ref) =>
      match GetMessageById(records, ref.messageId, ref.chatId)
      case None => None
      case Some(rec) => if rec.originalText != [] then Some(rec.originalText) else None
  }

  /**
   * `handle_translation`: the stored text of the replied-to message if there
   * is one, else the text after the first space of the command, else the
   * help. `storeAvailable` is whether the session could be opened; when it
   * cannot, the handler answers with the error reply whatever the request.
   * `translationType` is accepted and unused, as in the source.
   */
  function HandleTranslation(msg: Option<Command>, records: seq<Record>, storeAvailable: bool,
                             dir: Direction, translationType: string): (o: Outcome)
    ensures o.NoReply? <==> msg.None?
    ensures o.Error? <==> msg.Some? && !storeAvailable
    ensures o.Help? <==> msg.Some? && storeAvailable && StoredSource(msg.value, records).None? && ' ' !in msg.value.text
    ensures o.Help? ==> o.kind == HelpFor(msg.value.chatType)
  {
    match msg
    case None => NoReply
    case Some(m) =>
      if !storeAvailable then Error
      else match StoredSource(m, records)
        case Some(text) => Reply(Translate(dir, text))
        case None =>
          if ' ' in m.text then Reply(Translate(dir, AfterFirstSpace(m.text)))
          else Help(HelpFor(m.chatType))
  }

  // ---------------------------------------------------------------------------
  // Properties of the resolution
  // ---------------------------------------------------------------------------

  /**
   * A reply to a stored message with text translates that text, the first
   * stored record with the key winning; the command's own text is ignored.
   */
  lemma TranslatesRepliedToMessage(m: Command, before: seq<Record>, r: Record, after: seq<Record>,
                                   dir: Direction, translationType: string)
    requires m.replyTo == Some(ReplyRef(r.messageId, r.chatId))
    requires forall i :: 0 <= i < |before| ==> !HasKey(before[i], r.messageId, r.chatId)
    requires r.originalText != []
    ensures HandleTranslation(Some(m), before + [r] + after, true, dir, translationType) ==
            Reply(Translate(dir, r.originalText))
  {
    LookupFindsFirst(before, r, after);
  }

  /**
   * Without a usable reply, a command "prefix rest" whose prefix has no space
   * translates `rest`, which may be empty.
   */
  lemma TranslatesTextAfterFirstSpace(m: Command, records: seq<Record>, prefix: string, rest: string,
                                      dir: Direction, translationType: string)
    requires StoredSource(m, records).None?
    requires m.text == prefix + " " + rest && ' ' !in prefix
    ensures HandleTranslation(Some(m), records, true, dir, translationType) == Reply(Translate(dir, rest))
  {
    AfterFirstSpaceOf(prefix, rest);
  }

  /**
   * With no usable stored text (no reply, a reply to a message not in the
   * store, or one whose stored text is empty) and no space in the command,
   * the help for the chat is shown.
   */
  lemma HelpWhenNothingToTranslate(m: Command, records: seq<Record>, dir: Direction, translationType: string)
    requires StoredSource(m, records).None?
    requires ' ' !in m.text
    ensures HandleTranslation(Some(m), records, true, dir, translationType) == Help(HelpFor(m.chatType))
  {
  }

  /** In a store that only ever held saved messages, every record a reply finds is usable. */
  lemma SavedRecordsAreUsable(store: MessageStore, m: Command)
    requires store.Valid()
    requires m.replyTo.Some?
    ensures StoredSource(m, store.records).Some? <==>
              exists i :: 0 <= i < |store.records| &&
                          HasKey(store.records[i], m.replyTo.value.messageId, m.replyTo.value.chatId)
  {
    var records := store.records;
    var ref := m.replyTo.value;
    var found := GetMessageById(records, ref.messageId, ref.chatId);
    if found.Some? {
      var i :| 0 <= i < |records| && records[i] == found.value && HasKey(records[i], ref.messageId, ref.chatId);
      assert records[i] in records;
    }
  }

  /** The translation-type argument has no effect on the outcome. */
  lemma TranslationTypeIgnored(msg: Option<Command>, records: seq<Record>, storeAvailable: bool,
                               dir: Direction, t1: string, t2: string)
    ensures HandleTranslation(msg, records, storeAvailable, dir, t1) ==
            HandleTranslation(msg, records, storeAvailable, dir, t2)
  {
  }

  /** A reply has exactly as many characters as the text it translates. */
  lemma ReplyKeepsLength(m: Command, records: seq<Record>, dir: Direction, translationType: string)
    requires HandleTranslation(Some(m), records, true, dir, translationType).Reply?
    ensures |HandleTranslation(Some(m), records, true, dir, translationType).text| ==
            if StoredSource(m, records).Some? then |StoredSource(m, records).value| else |AfterFirstSpace(m.text)|
  {
  }

  /** Inline text in a group: "/translateua@BotUsername ghbdsn" is answered with "привіт". */
  lemma InlineCommandInGroup(records: seq<Record>)
    ensures HandleTranslation(Some(Command("/translateua@BotUsername ghbdsn", Group, None)), records, true,
                              ToUa, "en->ua") == Reply("привіт")
  {
    TranslatesTextAfterFirstSpace(Command("/translateua@BotUsername ghbdsn", Group, None), records,
                                  "/translateua@BotUsername", "ghbdsn", ToUa, "en->ua");
    GreetingToUa();
  }

  /** Save "ghbdsn", then answer "/translateua" sent as a reply to it: the answer is "привіт". */
  method ReplyToSavedMessage() returns (o: Outcome)
    ensures o == Reply("привіт")
  {
    var store := new MessageStore();
    var saved := store.SaveMessage(Incoming(1, 10, "ghbdsn", Some(User(7, false))), 0);
    var command := Command("/translateua", Private, Some(ReplyRef(1, 10)));
    o := HandleTranslation(Some(command), store.records, true, ToUa, "en->ua");
    LookupFindsFirst([], saved.value, []);
    assert [] + [saved.value] + [] == store.records;
    GreetingToUa();
  }
}
