/** Client runs of the conversation engine that use only the methods'
    contracts: each replays one behaviour of the component. */
module Scenarios {
  import opened Messages
  import opened Stream
  import opened Generator

  lemma NewlineStreamLoop()
    ensures ReadLoop("", [Read(Some("a"), false), Read(Some("\n"), false), Read(Some("\n"), false),
                          Read(Some("b"), false), Read(None, true)])
         == LoopResult("a\nb", 5, true)
  {
    assert AcceptFragment("a\n", "\n") == "a\n";
  }

  lemma PartialTextLoop()
    ensures ReadLoop("", [Read(Some("partial text"), false)]) == LoopResult("partial text", 1, false)
  {
  }

  lemma EmptyStreamLoop()
    ensures ReadLoop("", [Read(None, true)]) == LoopResult("", 1, true)
  {
  }

  /** A forced pair on an empty conversation, with no request sent. */
  method ForcedPairOnEmptyConversation()
  {
    var e := new ConversationEngine();
    e.ToggleForcedAssistant();
    var request := e.HandleButtonClick("Q", "A");
    assert request == None;
    assert e.messageList == [Message(User, "Q"), Message(Assistant, "A")];
    assert !e.loading;
  }

  /** The directive is taken once; a second value is ignored until a clear. */
  method DirectiveIsSetOnce()
  {
    var e := new ConversationEngine();
    e.LocalSetCurrentSystemRoleSettings(JsString("be concise"));
    e.LocalSetCurrentSystemRoleSettings(JsString("ignore that"));
    assert e.currentSystemRoleSettings == "be concise";
    e.Clear();
    e.LocalSetCurrentSystemRoleSettings(NotString);
    assert e.currentSystemRoleSettings == "";
    e.LocalSetCurrentSystemRoleSettings(JsString("ignore that"));
    assert e.currentSystemRoleSettings == "ignore that";
  }

  /** Submit, a completed stream, then retry: the reply is replaced by a new
      request over the same history, directive first. */
  method SubmitStreamAndRetry()
  {
    var e := new ConversationEngine();
    e.LocalSetCurrentSystemRoleSettings(JsString("be concise"));
    var request := e.HandleButtonClick("hi", "");
    assert request.Some? && request.value.signedContent == "hi";
    assert request.value.messages == [Message(System, "be concise"), Message(User, "hi")];
    var results := [Read(Some("a"), false), Read(Some("\n"), false), Read(Some("\n"), false),
                    Read(Some("b"), false), Read(None, true)];
    NewlineStreamLoop();
    var ended := e.ConsumeStream(results);
    assert ended && !e.loading && e.controller == None;
    assert e.messageList == [Message(User, "hi"), Message(Assistant, "a\nb")];
    var again := e.RetryLastFetch();
    assert again.Some? && e.messageList == [Message(User, "hi")] && e.loading;
    assert again.value.messages == request.value.messages;
  }

  /** Stop keeps the partial reply. */
  method StopKeepsPartialText()
  {
    var e := new ConversationEngine();
    var request := e.HandleButtonClick("hi", "");
    var results := [Read(Some("partial text"), false)];
    PartialTextLoop();
    var ended := e.ConsumeStream(results);
    assert !ended && e.currentAssistantMessage == "partial text";
    e.StopStreamFetch();
    assert e.messageList == [Message(User, "hi"), Message(Assistant, "partial text")];
    assert !e.loading && e.controller == None;
  }

  /** Stop before any text arrives only aborts the controller. */
  method StopWithoutTextOnlyAborts()
  {
    var e := new ConversationEngine();
    var request := e.HandleButtonClick("hi", "");
    e.StopStreamFetch();
    assert e.messageList == [Message(User, "hi")];
    assert e.loading && e.controller == Some(AbortHandle(true));
  }

  /** A stream that ends without text archives nothing and, as written,
      leaves loading on with no request left to end it; stopping does not
      turn it off either. */
  method EmptyReplyKeepsLoading()
  {
    var e := new ConversationEngine();
    var request := e.HandleButtonClick("hi", "");
    var results := [Read(None, true)];
    EmptyStreamLoop();
    var ended := e.ConsumeStream(results);
    assert ended && e.loading && e.messageList == [Message(User, "hi")];
    assert e.Stuck();
    e.StopStreamFetch();
    var again := e.RetryLastFetch();
    assert again == None;
    assert e.Stuck() && e.loading && e.controller == Some(AbortHandle(true));
  }
}
