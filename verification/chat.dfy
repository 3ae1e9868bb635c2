/**
 The chat panel (src/components/collab-surf/Chat.tsx): the send handler with
 its `@ai` command, and the roster it displays.
 */
module Chat {
  import opened Wrappers
  import opened Strings
  import opened Roster
  import SharedBrowser

  /** The author the assistant's replies are posted under. */
  const AiUser: User := User("ai-assistant", "AI Assistant")

  const EmptyQuestionReply: string := "Please provide a question after '@ai'."
  const InvalidPageReply: string := "I can't answer questions until you navigate to a valid webpage."

  /** `text.toLowerCase().startsWith('@ai')`. Lower-casing maps only `@` to
      `@`, only `a` and `A` to `a`, and only `i`, `I` and U+0130 (whose lower
      case begins with `i`) to something starting with `i`. */
  predicate IsAiCommand(text: string) {
    && |text| >= 3
    && text[0] == '@'
    && (text[1] == 'a' || text[1] == 'A')
    && (text[2] == 'i' || text[2] == 'I' || text[2] == '\U{0130}')
  }

  /** `text.substring(3).trim()`. */
  function Question(text: string): (q: string)
    ensures Unpadded(q)
    ensures |text| >= 3 ==> q == Trim(text[3..])
    ensures |text| < 3 ==> q == ""
  {
    if |text| >= 3 then Trim(text[3..]) else Trim("")
  }

  /** The page-URL guard: non-empty, not the blank page, and starting with
      `http`. */
  predicate PageUrlValid(url: string) {
    url != "" && url != SharedBrowser.BlankUrl && StartsWith(url, "http")
  }

  /** The first two tests of the guard are implied by the third. */
  lemma PageUrlGuardIsPrefixTest(url: string)
    ensures PageUrlValid(url) <==> StartsWith(url, "http")
  {
    if StartsWith(url, "http") {
      assert url[0] == 'h' && SharedBrowser.BlankUrl[0] == 'a';
    }
  }

  /** What one send makes the panel do, in order. */
  datatype Effect =
    | Post(msg: Outgoing)                     // a message document added
    | ClearInput
    | SetProcessing(on: bool)
    | AskAssistant(url: string, question: string)
    | ErrorToast

  /** An effect on the assistant's side: a post under the assistant or the
      error toast. */
  predicate FromAssistant(e: Effect) {
    (e.Post? && e.msg.author == AiUser) || e.ErrorToast?
  }

  /** The browser state the panel was given: `Some(url)`, or `None` when the
      component is mounted without one, so that reading its `url` throws. */
  predicate PageUsable(page: Option<string>) {
    page.Some? && PageUrlValid(page.value)
  }

  /** The reply part of an `@ai` command. The assistant's answer is an input:
      `Some(answer)`, or `None` when the call fails. A throw inside the
      handler's `try` (the call failing, or a missing browser state) ends in
      the error toast. */
  function AiHandling(text: string, page: Option<string>, answer: Option<string>): (r: seq<Effect>)
    ensures |r| == 1 || |r| == 2
    ensures |r| == 2 <==> Question(text) != "" && PageUsable(page)
    ensures |r| == 1 ==> FromAssistant(r[0])
    ensures |r| == 2 ==> r[0] == AskAssistant(page.value, Question(text)) && FromAssistant(r[1])
    ensures |r| == 2 ==> (r[1].ErrorToast? <==> answer.None?)
    ensures |r| == 2 && answer.Some? ==> r[1] == Post(Outgoing(AiUser, answer.value))
    ensures Question(text) == "" ==> r == [Post(Outgoing(AiUser, EmptyQuestionReply))]
    ensures Question(text) != "" && page.None? ==> r == [ErrorToast]
    ensures Question(text) != "" && page.Some? && !PageUrlValid(page.value) ==>
              r == [Post(Outgoing(AiUser, InvalidPageReply))]
  {
    var q := Question(text);
    if q == "" then [Post(Outgoing(AiUser, EmptyQuestionReply))]
    else if page.None? then [ErrorToast]
    else if !PageUrlValid(page.value) then [Post(Outgoing(AiUser, InvalidPageReply))]
    else if answer.Some? then [AskAssistant(page.value, q), Post(Outgoing(AiUser, answer.value))]
    else [AskAssistant(page.value, q), ErrorToast]
  }

  /** The send handler. A blank input, or any input while a request to the
      assistant is outstanding, does nothing. Otherwise the trimmed text is
      posted and the input cleared; then, for an `@ai` command, the processing
      flag is raised, a fixed reply is posted for an empty question or an
      unusable page, the assistant is asked otherwise, and the flag is
      lowered again on every path. */
  function HandleSendMessage(self: User, input: string, processing: bool, page: Option<string>, answer: Option<string>): (r: seq<Effect>)
    ensures Trim(input) == "" || processing ==> r == []
    ensures Trim(input) != "" && !processing && !IsAiCommand(Trim(input)) ==> r == [Post(Outgoing(self, Trim(input))), ClearInput]
    ensures Trim(input) != "" && !processing && IsAiCommand(Trim(input)) ==>
              r == Framed(Post(Outgoing(self, Trim(input))), AiHandling(Trim(input), page, answer))
  {
    var text := Trim(input);
    if text == "" || processing then []
    else
      var post := Post(Outgoing(self, text));
      if !IsAiCommand(text) then [post, ClearInput]
      else Framed(post, AiHandling(text, page, answer))
  }

  /** A user post followed by the reply part of a command, bracketed by the
      processing flag. */
  function Framed(post: Effect, ai: seq<Effect>): (r: seq<Effect>)
    ensures |r| == |ai| + 4
    ensures r[0] == post && r[1] == ClearInput && r[2] == SetProcessing(true) && r[|r| - 1] == SetProcessing(false)
    ensures r[3..|r| - 1] == ai
    ensures forall k :: 0 <= k < |ai| ==> r[k + 3] == ai[k]
  {
    var r := [post, ClearInput, SetProcessing(true)] + ai + [SetProcessing(false)];
    assert r[3..|r| - 1] == ai;
    r
  }

  /** A send that is not ignored posts the trimmed text first and then clears
      the input; the processing flag is raised and lowered around the reply
      part exactly for an `@ai` command. */
  lemma SendOrder(self: User, input: string, processing: bool, page: Option<string>, answer: Option<string>)
    ensures var r := HandleSendMessage(self, input, processing, page, answer);
      && (r == [] <==> Trim(input) == "" || processing)
      && (r != [] ==> |r| >= 2 && r[0] == Post(Outgoing(self, Trim(input))) && r[1] == ClearInput)
      && (|r| > 2 <==> Trim(input) != "" && !processing && IsAiCommand(Trim(input)))
      && (|r| > 2 ==> r[2] == SetProcessing(true) && r[|r| - 1] == SetProcessing(false)
                      && r[3..|r| - 1] == AiHandling(Trim(input), page, answer))
  {
  }

  /** The handler's first post is exactly what the chat hook's `sendMessage`
      writes for the trimmed text, the hook's own trim changing nothing. */
  lemma PostIsHookMessage(self: User, input: string, page: Option<string>, answer: Option<string>)
    requires Trim(input) != ""
    ensures SendMessage(self, Trim(input)).Some?
    ensures HandleSendMessage(self, input, false, page, answer)[0] == Post(SendMessage(self, Trim(input)).value)
  {
    TrimIdempotent(input);
  }

  lemma FramedAsks(post: Effect, ai: seq<Effect>, ask: Effect)
    requires post.Post? && ask.AskAssistant? && (|ai| == 1 || |ai| == 2)
    requires |ai| == 1 ==> FromAssistant(ai[0])
    requires |ai| == 2 ==> ai[0] == ask && FromAssistant(ai[1])
    ensures var r := Framed(post, ai);
      && ((exists k :: 0 <= k < |r| && r[k].AskAssistant?) <==> |ai| == 2)
      && (forall k :: 0 <= k < |r| && r[k].AskAssistant? ==> k == 3 && r[k] == ask)
  {
    var r := Framed(post, ai);
    assert r[3] == ai[0];
    assert |ai| == 2 ==> r[4] == ai[1];
  }

  /** The assistant is asked exactly when the command carries a question and
      the page is usable, and then about that page and question. */
  lemma AskedIffQuestionAndPage(self: User, input: string, page: Option<string>, answer: Option<string>)
    requires Trim(input) != "" && IsAiCommand(Trim(input))
    ensures var r := HandleSendMessage(self, input, false, page, answer);
      var q := Question(Trim(input));
      && ((exists k :: 0 <= k < |r| && r[k].AskAssistant?) <==> q != "" && PageUsable(page))
      && (forall k :: 0 <= k < |r| && r[k].AskAssistant? ==> r[k] == AskAssistant(page.value, q))
  {
    var q := Question(Trim(input));
    var post := Post(Outgoing(self, Trim(input)));
    var ai := AiHandling(Trim(input), page, answer);
    assert HandleSendMessage(self, input, false, page, answer) == Framed(post, ai);
    FramedAsks(post, ai, AskAssistant(if page.Some? then page.value else "", q));
  }

  lemma FramedAuthors(post: Effect, ai: seq<Effect>)
    requires |ai| == 1 || |ai| == 2
    requires |ai| == 1 ==> FromAssistant(ai[0])
    requires |ai| == 2 ==> ai[0].AskAssistant? && FromAssistant(ai[1])
    ensures var r := Framed(post, ai);
      forall k :: 1 <= k < |r| && r[k].Post? ==> r[k].msg.author == AiUser
  {
    var r := Framed(post, ai);
    assert r[3] == ai[0];
    assert |ai| == 2 ==> r[4] == ai[1];
  }

  /** Every message after the first is posted under the assistant. */
  lemma RepliesByAssistant(self: User, input: string, processing: bool, page: Option<string>, answer: Option<string>)
    ensures var r := HandleSendMessage(self, input, processing, page, answer);
      forall k :: 1 <= k < |r| && r[k].Post? ==> r[k].msg.author == AiUser
  {
    if Trim(input) != "" && !processing && IsAiCommand(Trim(input)) {
        FramedAuthors(Post(Outgoing(self, Trim(input))), AiHandling(Trim(input), page, answer));
    }
  }

  /** Any word beginning `@ai` counts as a command, not only `@ai` itself. */
  lemma LongerWordIsCommand(self: User, page: Option<string>, answer: Option<string>)
    ensures |HandleSendMessage(self, "@aim high", false, page, answer)| > 2
  {
    var s := "@aim high";
    assert Unpadded(s) by { assert s[0] == '@' && s[|s| - 1] == 'h'; }
    TrimUnpadded(s);
  }

  /** For a panel given the shared browser's state: until the first browser
      snapshot arrives the page is blank, so every question to the assistant
      gets the refusal. */
  lemma RefusedWhileInitializing(self: User, input: string, sessionId: string, answer: Option<string>)
    requires Trim(input) != "" && IsAiCommand(Trim(input)) && Question(Trim(input)) != ""
    ensures var page := Some(SharedBrowser.Exposed(SharedBrowser.Subscribe(sessionId, SharedBrowser.InitialBrowser)));
      HandleSendMessage(self, input, false, page, answer)[3] == Post(Outgoing(AiUser, InvalidPageReply))
  {
  }

  /** The page component mounts the panel without a browser state. Then no
      question ever reaches the assistant: every `@ai` command with a
      question ends in the error toast, whatever the assistant would have
      answered. */
  lemma MountedWithoutBrowserState(self: User, input: string, answer: Option<string>)
    requires Trim(input) != "" && IsAiCommand(Trim(input)) && Question(Trim(input)) != ""
    ensures var r := HandleSendMessage(self, input, false, None, answer);
      && |r| == 5 && r[3] == ErrorToast
      && (forall k :: 0 <= k < |r| ==> !r[k].AskAssistant?)
  {
  }

  /** Some message is authored by the assistant's id. */
  predicate AiActive(messages: seq<Message>) {
    exists i :: 0 <= i < |messages| && messages[i].author.id == AiUser.id
  }

  /** The displayed roster: the assistant is appended when it has posted and
      is not listed yet. */
  function DisplayedParticipants(participants: seq<User>, messages: seq<Message>): (r: seq<User>)
    ensures |participants| <= |r| <= |participants| + 1 && r[..|participants|] == participants
    ensures |r| > |participants| ==> r[|participants|] == AiUser
    ensures |r| > |participants| <==> AiActive(messages) && !HasId(participants, AiUser.id)
    ensures forall id :: HasId(r, id) <==> HasId(participants, id) || (id == AiUser.id && AiActive(messages))
    ensures DistinctIds(participants) ==> DistinctIds(r)
  {
    if AiActive(messages) && !HasId(participants, AiUser.id) then
      var r := participants + [AiUser];
      assert r[..|participants|] == participants;
      assert r[|participants|].id == AiUser.id;
      forall id | HasId(r, id) && id != AiUser.id ensures HasId(participants, id) {
        var i :| 0 <= i < |r| && r[i].id == id;
        assert participants[i].id == id;
      }
      forall id | HasId(participants, id) ensures HasId(r, id) {
        var i :| 0 <= i < |participants| && participants[i].id == id;
        assert r[i].id == id;
      }
      r
    else
      assert participants[..|participants|] == participants;
      participants
  }

  /** The augmentation never fires on the roster the chat hook supplies: an
      assistant message puts the assistant's id among the participants (or
      it is the local user's own id), so it is already listed. */
  lemma AugmentationRedundant(self: User, messages: seq<Message>)
    ensures var roster := AllParticipants(self, Participants(messages, self));
      DisplayedParticipants(roster, messages) == roster
  {
    var ps := Participants(messages, self);
    var roster := AllParticipants(self, ps);
    AllParticipantsShape(self, ps);
    if AiActive(messages) {
      var i :| 0 <= i < |messages| && messages[i].author.id == AiUser.id;
      if self.id != AiUser.id {
        assert HasId(ps, AiUser.id);
      }
      assert HasId(roster, AiUser.id);
    }
  }
}
