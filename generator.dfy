/** The conversation state machine of the chat component
    (src/components/Generator.tsx): the component's signals become the fields
    of one object, and each handler becomes a method that updates them. */
module Generator {
  import opened Messages
  import opened Stream

  /** What the set-once directive handler receives; it only accepts a value
      whose JavaScript `typeof` is `'string'`. */
  datatype JsValue = JsString(s: string) | NotString

  /** An `AbortController`: whether `abort()` has been called on it. */
  datatype AbortHandle = AbortHandle(aborted: bool)

  /** What one request sends: its message list and the text the signature
      covers (time stamp, password and the signature itself are left out). */
  datatype Request = Request(messages: seq<Message>, signedContent: string)

  class ConversationEngine {
    var messageList: seq<Message>
    var currentSystemRoleSettings: string
    /** The in-progress assistant reply. */
    var currentAssistantMessage: string
    var loading: bool
    var controller: Option<AbortHandle>
    var forcedAssistantEnabled: bool
    /** Whether a `requestWithLatestMessage` call is still running: between
        its start and either the end of its read loop or its `catch`. */
    ghost var inFlight: bool

    /** A controller exists exactly while a request is loading, and the
        stored conversation holds only user and assistant messages. */
    ghost predicate Valid()
      reads this
    {
      (loading <==> controller.Some?) && NoSystemMessages(messageList)
    }

    /** Loading is on, yet no request is running that could end it, nothing
        is buffered to archive and no reply is offered for retry: only the
        stop button, the retry button and the set-once directive stay
        reachable, since the input controls are hidden while loading. */
    ghost predicate Stuck()
      reads this
    {
      loading && !inFlight && currentAssistantMessage == ""
      && !(messageList != [] && messageList[|messageList| - 1].role == Assistant)
    }

    constructor ()
      ensures Valid()
      ensures messageList == [] && currentSystemRoleSettings == "" && currentAssistantMessage == ""
      ensures !loading && controller == None && !forcedAssistantEnabled && !inFlight
    {
      messageList := [];
      currentSystemRoleSettings := "";
      currentAssistantMessage := "";
      loading := false;
      controller := None;
      forcedAssistantEnabled := false;
      inFlight := false;
    }

    /** The request list: a copy of the stored list with the directive
        unshifted to the front when one is set; the stored list is untouched. */
    method BuildRequestList() returns (requestMessageList: seq<Message>)
      ensures requestMessageList == BuildRequestMessages(messageList, currentSystemRoleSettings)
    {
      requestMessageList := messageList;
      if currentSystemRoleSettings != "" {
        requestMessageList := [Message(System, currentSystemRoleSettings)] + requestMessageList;
      }
    }

    /** The synchronous start of `requestWithLatestMessage`: loading on, an
        empty buffer, a fresh controller, and the request that is sent. */
    method StartRequest() returns (request: Request)
      requires Valid()
      modifies this
      ensures Valid()
      ensures loading && currentAssistantMessage == "" && controller == Some(AbortHandle(false)) && inFlight
      ensures messageList == old(messageList)
      ensures currentSystemRoleSettings == old(currentSystemRoleSettings)
      ensures forcedAssistantEnabled == old(forcedAssistantEnabled)
      ensures request.messages == BuildRequestMessages(messageList, currentSystemRoleSettings)
      ensures request.signedContent
           == if messageList != [] then messageList[|messageList| - 1].content else currentSystemRoleSettings
    {
      loading := true;
      currentAssistantMessage := "";
      controller := Some(AbortHandle(false));
      inFlight := true;
      var requestMessageList := BuildRequestList();
      SignedContentOfRequest(messageList, currentSystemRoleSettings);
      request := Request(requestMessageList, SignedContent(requestMessageList));
    }

    /** The send button, given the two text areas' contents. */
    method HandleButtonClick(inputValue: string, forcedValue: string) returns (request: Option<Request>)
      requires Valid()
      modifies this
      ensures Valid()
      ensures request.Some? <==> inputValue != "" && !old(forcedAssistantEnabled)
      ensures inFlight == (request.Some? || old(inFlight))
      ensures currentSystemRoleSettings == old(currentSystemRoleSettings)
      ensures forcedAssistantEnabled == old(forcedAssistantEnabled)
      ensures inputValue == "" || (forcedAssistantEnabled && forcedValue == "") ==>
                messageList == old(messageList) && currentAssistantMessage == old(currentAssistantMessage)
                && loading == old(loading) && controller == old(controller)
      ensures inputValue != "" && forcedAssistantEnabled && forcedValue != "" ==>
                messageList == old(messageList) + [Message(User, inputValue), Message(Assistant, forcedValue)]
                && currentAssistantMessage == old(currentAssistantMessage)
                && loading == old(loading) && controller == old(controller)
      ensures request.Some? ==>
                messageList == old(messageList) + [Message(User, inputValue)]
                && loading && currentAssistantMessage == "" && controller == Some(AbortHandle(false))
                && request.value.messages == BuildRequestMessages(messageList, currentSystemRoleSettings)
                && request.value.signedContent == inputValue
    {
      request := None;
      if inputValue == "" {
        return;
      }
      if forcedAssistantEnabled {
        ForceAssistant(inputValue, forcedValue);
        return;
      }
      messageList := messageList + [Message(User, inputValue)];
      var sent := StartRequest();
      request := Some(sent);
    }

    /** Appends a user message and a typed-in assistant reply without any
        request; an empty reply changes nothing. */
    method ForceAssistant(message: string, forcedValue: string)
      requires Valid()
      modifies this
      ensures Valid()
      ensures messageList == if forcedValue == "" then old(messageList)
                             else old(messageList) + [Message(User, message), Message(Assistant, forcedValue)]
      ensures currentAssistantMessage == old(currentAssistantMessage)
      ensures loading == old(loading) && controller == old(controller) && inFlight == old(inFlight)
      ensures currentSystemRoleSettings == old(currentSystemRoleSettings)
      ensures forcedAssistantEnabled == old(forcedAssistantEnabled)
    {
      if forcedValue == "" {
        return;
      }
      messageList := messageList + [Message(User, message), Message(Assistant, forcedValue)];
    }

    /** The read loop over the results the reader delivers, followed by the
        archive step once the reader reports `done`. */
    method ConsumeStream(results: seq<Read>) returns (ended: bool)
      requires Valid() && inFlight
      modifies this
      ensures Valid()
      ensures ended == ReadLoop(old(currentAssistantMessage), results).ended
      ensures inFlight == !ended
      ensures var out := ReadLoop(old(currentAssistantMessage), results).buffer;
              if !ended then
                currentAssistantMessage == out && messageList == old(messageList)
                && loading == old(loading) && controller == old(controller)
              else if out != "" then
                messageList == old(messageList) + [Message(Assistant, out)]
                && currentAssistantMessage == "" && !loading && controller == None
              else
                currentAssistantMessage == "" && messageList == old(messageList)
                && loading == old(loading) && controller == old(controller)
      ensures currentSystemRoleSettings == old(currentSystemRoleSettings)
      ensures forcedAssistantEnabled == old(forcedAssistantEnabled)
    {
      var done := false;
      var i := 0;
      while !done && i < |results|
        invariant 0 <= i <= |results|
        invariant Valid()
        invariant messageList == old(messageList) && loading == old(loading) && controller == old(controller)
        invariant currentSystemRoleSettings == old(currentSystemRoleSettings)
        invariant forcedAssistantEnabled == old(forcedAssistantEnabled) && inFlight
        invariant done ==> ReadLoop(old(currentAssistantMessage), results)
                           == LoopResult(currentAssistantMessage, i, true)
        invariant !done ==> ReadLoop(old(currentAssistantMessage), results)
                            == Shift(ReadLoop(currentAssistantMessage, results[i..]), i)
        decreases |results| - i
      {
        var r := results[i];
        ReadLoopFrom(currentAssistantMessage, results, i);
        i := i + 1;
        if r.value.Some? {
          var fragment := r.value.value;
          if fragment == "\n" && EndsWithNewline(currentAssistantMessage) {
            continue;
          }
          if fragment != "" {
            currentAssistantMessage := currentAssistantMessage + fragment;
          }
        }
        done := r.done;
      }
      ended := done;
      assert !done ==> results[i..] == [];
      if done {
        inFlight := false;
        ArchiveCurrentMessage();
      }
    }

    /** The `catch` block: the request failed or reading broke off. */
    method FailRequest()
      requires Valid() && inFlight
      modifies this
      ensures Valid()
      ensures !loading && controller == None && !inFlight
      ensures messageList == old(messageList) && currentAssistantMessage == old(currentAssistantMessage)
      ensures currentSystemRoleSettings == old(currentSystemRoleSettings)
      ensures forcedAssistantEnabled == old(forcedAssistantEnabled)
    {
      loading := false;
      controller := None;
      inFlight := false;
    }

    /** Moves a non-empty buffer into the conversation and ends loading;
        with an empty buffer it does nothing at all. */
    method ArchiveCurrentMessage()
      requires Valid()
      modifies this
      ensures Valid()
      ensures inFlight == old(inFlight)
      ensures old(currentAssistantMessage) != "" ==>
                messageList == old(messageList) + [Message(Assistant, old(currentAssistantMessage))]
                && currentAssistantMessage == "" && !loading && controller == None
      ensures old(currentAssistantMessage) == "" ==>
                messageList == old(messageList) && currentAssistantMessage == ""
                && loading == old(loading) && controller == old(controller)
      ensures currentSystemRoleSettings == old(currentSystemRoleSettings)
      ensures forcedAssistantEnabled == old(forcedAssistantEnabled)
    {
      if currentAssistantMessage != "" {
        messageList := messageList + [Message(Assistant, currentAssistantMessage)];
        currentAssistantMessage := "";
        loading := false;
        controller := None;
      }
    }

    /** Empties the conversation, the buffer and the directive; loading and
        the controller are left as they are. */
    method Clear()
      requires Valid()
      modifies this
      ensures Valid()
      ensures inFlight == old(inFlight)
      ensures messageList == [] && currentAssistantMessage == "" && currentSystemRoleSettings == ""
      ensures loading == old(loading) && controller == old(controller)
      ensures forcedAssistantEnabled == old(forcedAssistantEnabled)
    {
      messageList := [];
      currentAssistantMessage := "";
      currentSystemRoleSettings := "";
    }

    /** Sets the directive from outside, only from a string and only while no
        directive is set. */
    method LocalSetCurrentSystemRoleSettings(localSystemRole: JsValue)
      requires Valid()
      modifies this
      ensures Valid()
      ensures inFlight == old(inFlight)
      ensures old(Stuck()) ==> Stuck()
      ensures currentSystemRoleSettings
           == if localSystemRole.JsString? && old(currentSystemRoleSettings) == ""
              then localSystemRole.s else old(currentSystemRoleSettings)
      ensures messageList == old(messageList) && currentAssistantMessage == old(currentAssistantMessage)
      ensures loading == old(loading) && controller == old(controller)
      ensures forcedAssistantEnabled == old(forcedAssistantEnabled)
    {
      if !localSystemRole.JsString? || currentSystemRoleSettings != "" {
        return;
      }
      currentSystemRoleSettings := localSystemRole.s;
    }

    /** The stop button: aborts the controller, if any, then archives. */
    method StopStreamFetch()
      requires Valid()
      modifies this
      ensures Valid()
      ensures inFlight == old(inFlight)
      ensures old(Stuck()) ==> Stuck()
      ensures old(controller).None? ==>
                messageList == old(messageList) && currentAssistantMessage == old(currentAssistantMessage)
                && loading == old(loading) && controller == None
      ensures old(controller).Some? && old(currentAssistantMessage) != "" ==>
                messageList == old(messageList) + [Message(Assistant, old(currentAssistantMessage))]
                && currentAssistantMessage == "" && !loading && controller == None
      ensures old(controller).Some? && old(currentAssistantMessage) == "" ==>
                messageList == old(messageList) && currentAssistantMessage == ""
                && loading && controller == Some(AbortHandle(true))
      ensures currentSystemRoleSettings == old(currentSystemRoleSettings)
      ensures forcedAssistantEnabled == old(forcedAssistantEnabled)
    {
      if controller.Some? {
        controller := Some(AbortHandle(true));
        ArchiveCurrentMessage();
      }
    }

    /** Regenerates the last reply: drops a trailing assistant message and
        sends the conversation before it again. */
    method RetryLastFetch() returns (request: Option<Request>)
      requires Valid()
      modifies this
      ensures Valid()
      ensures inFlight == (request.Some? || old(inFlight))
      ensures old(Stuck()) ==> Stuck()
      ensures request.Some? <==> old(messageList) != [] && old(messageList)[|old(messageList)| - 1].role == Assistant
      ensures request.None? ==>
                messageList == old(messageList) && currentAssistantMessage == old(currentAssistantMessage)
                && loading == old(loading) && controller == old(controller)
      ensures request.Some? ==>
                messageList == old(messageList)[..|old(messageList)| - 1]
                && loading && currentAssistantMessage == "" && controller == Some(AbortHandle(false))
                && request.value.messages == BuildRequestMessages(messageList, currentSystemRoleSettings)
                && request.value.signedContent
                   == if messageList != [] then messageList[|messageList| - 1].content else currentSystemRoleSettings
      ensures currentSystemRoleSettings == old(currentSystemRoleSettings)
      ensures forcedAssistantEnabled == old(forcedAssistantEnabled)
    {
      request := None;
      if |messageList| > 0 {
        var lastMessage := messageList[|messageList| - 1];
        if lastMessage.role == Assistant {
          messageList := messageList[..|messageList| - 1];
          var sent := StartRequest();
          request := Some(sent);
        }
      }
    }

    /** The forced-assistant toggle button. */
    method ToggleForcedAssistant()
      requires Valid()
      modifies this
      ensures Valid()
      ensures inFlight == old(inFlight)
      ensures forcedAssistantEnabled == !old(forcedAssistantEnabled)
      ensures messageList == old(messageList) && currentAssistantMessage == old(currentAssistantMessage)
      ensures currentSystemRoleSettings == old(currentSystemRoleSettings)
      ensures loading == old(loading) && controller == old(controller)
    {
      forcedAssistantEnabled := !forcedAssistantEnabled;
    }
  }
}
