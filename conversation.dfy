/** The chat page (`Index` in src/pages/Index.tsx): the message log, the
    loading and mute flags, and the speech channel. Each request to the
    backend is one atomic call whose reply is a parameter; speech and toasts
    are logs of the commands the page issues. */
module Conversation {
  import opened Common

  /** One entry of the chat log; the optional `audio` field is never set. */
  datatype Message = Message(text: string, isBot: bool)

  /** A command to the browser's speech synthesiser. */
  datatype Speech = Cancel | Speak(text: string)

  /** What a backend request yields: a decoded JSON body, whose `error` field is
      "" when absent or falsy, or a failure of `fetch` / `response.json()`. */
  datatype Reply = Received(error: string, response: string) | TransportFailure

  /** The page between two handlers. `synth` says whether the mount effect found
      `window.speechSynthesis`; the page never changes it. */
  datatype State = State(
    messages: seq<Message>,
    isLoading: bool,
    isMuted: bool,
    synth: bool,
    speech: seq<Speech>,
    notices: seq<Notice>)

  const MutedNotice := "Audio responses muted"
  const UnmutedNotice := "Audio responses unmuted"
  const AudioFailedNotice := "Failed to play audio response"
  const SendFailedNotice := "Failed to send message. Please try again."
  const UploadFailedNotice := "Failed to upload image. Please try again."
  const UploadPrefix := "Uploaded image: "

  /** A reply that reaches the success path: decoded and without an error. */
  predicate Succeeded(reply: Reply) {
    reply.Received? && reply.error == ""
  }

  /** The state after the mount effect. */
  function Mounted(synth: bool): (r: State)
    ensures r.messages == [] && !r.isLoading && !r.isMuted && r.speech == [] && r.notices == []
    ensures r.synth == synth
  {
    State([], false, false, synth, [], [])
  }

  /** `playAudio(text)`. Without a synthesiser the call to `speak` throws and
      the page shows a toast instead. */
  function AfterPlayAudio(st: State, text: string): (r: State)
    ensures r.messages == st.messages && r.isLoading == st.isLoading && r.isMuted == st.isMuted && r.synth == st.synth
    ensures st.isMuted ==> r == st
    ensures !st.isMuted && st.synth ==> r.speech == st.speech + [Cancel, Speak(text)] && r.notices == st.notices
    ensures !st.isMuted && !st.synth ==> r.speech == st.speech && r.notices == st.notices + [Failure(AudioFailedNotice)]
  {
    if st.isMuted then st
    else if st.synth then st.(speech := st.speech + [Cancel, Speak(text)])
    else st.(notices := st.notices + [Failure(AudioFailedNotice)])
  }

  /** `toggleMute()`. */
  function AfterToggleMute(st: State): (r: State)
    ensures r.isMuted == !st.isMuted
    ensures r.messages == st.messages && r.isLoading == st.isLoading && r.synth == st.synth
    ensures r.notices == st.notices + [Info(if r.isMuted then MutedNotice else UnmutedNotice)]
    ensures r.speech == st.speech || r.speech == st.speech + [Cancel]
    ensures r.speech != st.speech <==> r.isMuted && st.synth
  {
    var muted := !st.isMuted;
    var speech := if muted && st.synth then st.speech + [Cancel] else st.speech;
    st.(isMuted := muted, speech := speech,
        notices := st.notices + [Info(if muted then MutedNotice else UnmutedNotice)])
  }

  /** `sendMessage(message)` up to the `fetch`: loading, with the user's message last. */
  function Dispatched(st: State, message: string): (r: State)
    ensures r.isLoading
    ensures |r.messages| == |st.messages| + 1 && r.messages[..|st.messages|] == st.messages
    ensures r.messages[|st.messages|] == Message(message, false)
    ensures r.isMuted == st.isMuted && r.synth == st.synth && r.speech == st.speech && r.notices == st.notices
  {
    st.(isLoading := true, messages := st.messages + [Message(message, false)])
  }

  /** `sendMessage(message)` once the reply is in. */
  function AfterSendMessage(st: State, message: string, reply: Reply): (r: State)
    ensures !r.isLoading
    ensures r.isMuted == st.isMuted && r.synth == st.synth
    ensures |st.messages| < |r.messages| && r.messages[..|st.messages| + 1] == st.messages + [Message(message, false)]
    ensures Succeeded(reply) <==> |r.messages| == |st.messages| + 2
    ensures Succeeded(reply) ==>
      r.messages[|st.messages| + 1] == Message(reply.response, true)
      && r.speech == AfterPlayAudio(st, reply.response).speech
      && r.notices == AfterPlayAudio(st, reply.response).notices
    ensures !Succeeded(reply) ==> r.messages == st.messages + [Message(message, false)]
    ensures !Succeeded(reply) ==> r.speech == st.speech && r.notices == st.notices + [Failure(SendFailedNotice)]
  {
    var sent := Dispatched(st, message);
    var settled :=
      if Succeeded(reply) then
        AfterPlayAudio(sent.(messages := sent.messages + [Message(reply.response, true)]), reply.response)
      else sent.(notices := sent.notices + [Failure(SendFailedNotice)]);
    settled.(isLoading := false)
  }

  /** `handleFileUpload(file)` once the reply is in. */
  function AfterFileUpload(st: State, file: File, reply: Reply): (r: State)
    ensures !r.isLoading
    ensures r.isMuted == st.isMuted && r.synth == st.synth
    ensures Succeeded(reply) ==>
      r.messages == st.messages + [Message(UploadPrefix + file.name, false), Message(reply.response, true)]
      && r.speech == AfterPlayAudio(st, reply.response).speech
      && r.notices == AfterPlayAudio(st, reply.response).notices
    ensures !Succeeded(reply) ==>
      r.messages == st.messages && r.speech == st.speech && r.notices == st.notices + [Failure(UploadFailedNotice)]
  {
    var sent := st.(isLoading := true);
    var settled :=
      if Succeeded(reply) then
        var shown := sent.messages + [Message(UploadPrefix + file.name, false), Message(reply.response, true)];
        AfterPlayAudio(sent.(messages := shown), reply.response)
      else sent.(notices := sent.notices + [Failure(UploadFailedNotice)]);
    settled.(isLoading := false)
  }

  /** The clean-up of the mount effect. */
  function AfterUnmount(st: State): (r: State)
    ensures r.messages == st.messages && r.isMuted == st.isMuted && r.notices == st.notices
    ensures r == st.(speech := r.speech)
    ensures st.synth ==> r.speech == st.speech + [Cancel]
    ensures !st.synth ==> r.speech == st.speech
  {
    if st.synth then st.(speech := st.speech + [Cancel]) else st
  }

  // ---------------------------------------------------------------------------
  // Sequences of user actions

  /** What the user can do on the page; a request and its reply form one event. */
  datatype Event = ToggleMute | SendMessage(text: string, reply: Reply) | UploadFile(file: File, reply: Reply)

  function Step(st: State, e: Event): State {
    match e
    case ToggleMute => AfterToggleMute(st)
    case SendMessage(text, reply) => AfterSendMessage(st, text, reply)
    case UploadFile(file, reply) => AfterFileUpload(st, file, reply)
  }

  function Run(st: State, events: seq<Event>): State
    decreases |events|
  {
    if events == [] then st else Run(Step(st, events[0]), events[1..])
  }

  /** The messages an event adds to the log, written independently of the handlers. */
  function Contribution(e: Event): seq<Message> {
    match e
    case ToggleMute => []
    case SendMessage(text, reply) =>
      [Message(text, false)] + (if Succeeded(reply) then [Message(reply.response, true)] else [])
    case UploadFile(file, reply) =>
      if Succeeded(reply) then [Message(UploadPrefix + file.name, false), Message(reply.response, true)] else []
  }

  function Transcript(events: seq<Event>): seq<Message> {
    if events == [] then [] else Contribution(events[0]) + Transcript(events[1..])
  }

  /** The number of events whose request was answered. */
  function Answered(events: seq<Event>): nat {
    if events == [] then 0
    else (if !events[0].ToggleMute? && Succeeded(events[0].reply) then 1 else 0) + Answered(events[1..])
  }

  function Toggles(events: seq<Event>): nat {
    if events == [] then 0 else (if events[0].ToggleMute? then 1 else 0) + Toggles(events[1..])
  }

  function Bots(ms: seq<Message>): nat {
    if ms == [] then 0 else (if ms[0].isBot then 1 else 0) + Bots(ms[1..])
  }

  /** Every bot message comes right after a user message. */
  ghost predicate EveryReplyAnswers(ms: seq<Message>) {
    (|ms| > 0 ==> !ms[0].isBot)
    && forall i, j :: 0 <= i < j < |ms| && j == i + 1 && ms[j].isBot ==> !ms[i].isBot
  }

  /** Every `speak` is issued right after a `cancel`. */
  ghost predicate SpeakAfterCancel(sp: seq<Speech>) {
    (|sp| > 0 ==> !sp[0].Speak?)
    && forall i, j :: 0 <= i < j < |sp| && j == i + 1 && sp[j].Speak? ==> sp[i] == Cancel
  }

  /** The invariant the page keeps between handlers. */
  ghost predicate Consistent(st: State) {
    !st.isLoading && EveryReplyAnswers(st.messages) && SpeakAfterCancel(st.speech)
  }

  /** One event adds exactly its contribution to the message log. */
  lemma StepMessages(st: State, e: Event)
    ensures Step(st, e).messages == st.messages + Contribution(e)
  {
    match e
    case ToggleMute =>
    case SendMessage(text, reply) =>
      var r := Step(st, e);
      if Succeeded(reply) {
        assert r.messages == st.messages + [Message(text, false)] + [Message(reply.response, true)];
      }
    case UploadFile(file, reply) =>
  }

  /** The log after any sequence of events is the old log followed by their transcript. */
  lemma {:induction false} RunMessages(st: State, events: seq<Event>)
    ensures Run(st, events).messages == st.messages + Transcript(events)
    decreases |events|
  {
    if events != [] {
      var next := Step(st, events[0]);
      assert Run(st, events) == Run(next, events[1..]);
      assert Transcript(events) == Contribution(events[0]) + Transcript(events[1..]);
      RunMessages(next, events[1..]);
      StepMessages(st, events[0]);
      AppendAssoc(st.messages, Contribution(events[0]), Transcript(events[1..]));
    }
  }

  /** The message log is append-only. */
  lemma RunAppendOnly(st: State, events: seq<Event>)
    ensures |st.messages| <= |Run(st, events).messages|
    ensures Run(st, events).messages[..|st.messages|] == st.messages
  {
    RunMessages(st, events);
  }

  /** Once idle, the page is idle again after any sequence of events. */
  lemma {:induction false} RunNotLoading(st: State, events: seq<Event>)
    requires !st.isLoading
    ensures !Run(st, events).isLoading
    decreases |events|
  {
    if events != [] {
      RunNotLoading(Step(st, events[0]), events[1..]);
    }
  }

  /** The mute flag flips once per toggle and nothing else changes it. */
  lemma {:induction false} RunMuteParity(st: State, events: seq<Event>)
    ensures Run(st, events).isMuted == (st.isMuted != (Toggles(events) % 2 == 1))
    decreases |events|
  {
    if events != [] {
      RunMuteParity(Step(st, events[0]), events[1..]);
    }
  }

  /** While muted, with no toggle, the page never speaks nor cancels speech. */
  lemma {:induction false} RunMutedSilent(st: State, events: seq<Event>)
    requires st.isMuted && Toggles(events) == 0
    ensures Run(st, events).speech == st.speech
    decreases |events|
  {
    if events != [] {
      RunMutedSilent(Step(st, events[0]), events[1..]);
    }
  }

  /** Each answered request adds exactly one bot message. */
  lemma {:induction false} TranscriptBots(events: seq<Event>)
    ensures Bots(Transcript(events)) == Answered(events)
  {
    if events != [] {
      TranscriptBots(events[1..]);
      BotsConcat(Contribution(events[0]), Transcript(events[1..]));
    }
  }

  lemma {:induction false} BotsConcat(a: seq<Message>, b: seq<Message>)
    ensures Bots(a + b) == Bots(a) + Bots(b)
  {
    if a != [] {
      assert (a + b)[0] == a[0] && (a + b)[1..] == a[1..] + b;
      BotsConcat(a[1..], b);
    } else {
      assert a + b == b;
    }
  }

  /** The number of bot messages grows by the number of answered requests. */
  lemma RunBots(st: State, events: seq<Event>)
    ensures Bots(Run(st, events).messages) == Bots(st.messages) + Answered(events)
  {
    RunMessages(st, events);
    BotsConcat(st.messages, Transcript(events));
    TranscriptBots(events);
  }

  lemma RepliesConcat(a: seq<Message>, b: seq<Message>)
    requires EveryReplyAnswers(a) && EveryReplyAnswers(b)
    ensures EveryReplyAnswers(a + b)
  {
    forall i, j | 0 <= i < j < |a + b| && j == i + 1 && (a + b)[j].isBot
      ensures !(a + b)[i].isBot
    {
      if j < |a| {
        assert (a + b)[i] == a[i] && (a + b)[j] == a[j];
      } else if j > |a| {
        assert (a + b)[i] == b[i - |a|] && (a + b)[j] == b[j - |a|];
      }
    }
  }

  lemma {:induction false} TranscriptAnswers(events: seq<Event>)
    ensures EveryReplyAnswers(Transcript(events))
  {
    if events != [] {
      TranscriptAnswers(events[1..]);
      RepliesConcat(Contribution(events[0]), Transcript(events[1..]));
    }
  }

  /** Every bot message in the log answers the user message before it. */
  lemma RunAnswers(st: State, events: seq<Event>)
    requires EveryReplyAnswers(st.messages)
    ensures EveryReplyAnswers(Run(st, events).messages)
  {
    RunMessages(st, events);
    TranscriptAnswers(events);
    RepliesConcat(st.messages, Transcript(events));
  }

  lemma SpeechConcat(a: seq<Speech>, b: seq<Speech>)
    requires SpeakAfterCancel(a) && SpeakAfterCancel(b)
    ensures SpeakAfterCancel(a + b)
  {
    forall i, j | 0 <= i < j < |a + b| && j == i + 1 && (a + b)[j].Speak?
      ensures (a + b)[i] == Cancel
    {
      if j < |a| {
        assert (a + b)[i] == a[i] && (a + b)[j] == a[j];
      } else if j > |a| {
        assert (a + b)[i] == b[i - |a|] && (a + b)[j] == b[j - |a|];
      }
    }
  }

  /** Each event keeps every `speak` right after a `cancel`. */
  lemma StepSpeech(st: State, e: Event)
    requires SpeakAfterCancel(st.speech)
    ensures SpeakAfterCancel(Step(st, e).speech)
  {
    SpeechConcat(st.speech, [Cancel]);
    match e
    case ToggleMute =>
    case SendMessage(_, reply) =>
      if reply.Received? { SpeechConcat(st.speech, [Cancel, Speak(reply.response)]); }
    case UploadFile(_, reply) =>
      if reply.Received? { SpeechConcat(st.speech, [Cancel, Speak(reply.response)]); }
  }

  lemma {:induction false} RunSpeech(st: State, events: seq<Event>)
    requires SpeakAfterCancel(st.speech)
    ensures SpeakAfterCancel(Run(st, events).speech)
    decreases |events|
  {
    if events != [] {
      StepSpeech(st, events[0]);
      RunSpeech(Step(st, events[0]), events[1..]);
    }
  }

  /** The page invariant holds after mounting and after every event. */
  lemma StepConsistent(st: State, e: Event)
    requires Consistent(st)
    ensures Consistent(Step(st, e))
  {
    assert Step(st, e) == Run(st, [e]);
    RunAnswers(st, [e]);
    StepSpeech(st, e);
  }

  // ---------------------------------------------------------------------------
  // The page as an object

  class ChatPage {
    var messages: seq<Message>
    var isLoading: bool
    var isMuted: bool
    const synth: bool
    var speech: seq<Speech>
    var notices: seq<Notice>

    function View(): State
      reads this
    {
      State(messages, isLoading, isMuted, synth, speech, notices)
    }

    ghost predicate Valid()
      reads this
    {
      Consistent(View())
    }

    /** The first render followed by the mount effect. */
    constructor(synthAvailable: bool)
      ensures View() == Mounted(synthAvailable)
      ensures Valid()
    {
      messages := [];
      isLoading := false;
      isMuted := false;
      synth := synthAvailable;
      speech := [];
      notices := [];
    }

    /** The page's internal helper `playAudio`; it runs only inside SendMessage
        and HandleFileUpload, which restore the invariant around it. */
    method PlayAudio(text: string)
      modifies this
      ensures View() == AfterPlayAudio(old(View()), text)
    {
      if isMuted {
        return;
      }
      if synth {
        speech := speech + [Cancel];
        speech := speech + [Speak(text)];
      } else {
        notices := notices + [Failure(AudioFailedNotice)];
      }
    }

    method ToggleMute()
      requires Valid()
      modifies this
      ensures View() == AfterToggleMute(old(View()))
      ensures Valid()
    {
      var newMuteState := !isMuted;
      isMuted := newMuteState;
      notices := notices + [Info(if newMuteState then MutedNotice else UnmutedNotice)];
      if newMuteState && synth {
        speech := speech + [Cancel];
      }
      assert View() == Step(old(View()), Event.ToggleMute);
      assert Valid() by { StepConsistent(old(View()), Event.ToggleMute); }
    }

    method SendMessage(message: string, reply: Reply)
      requires Valid()
      modifies this
      ensures View() == AfterSendMessage(old(View()), message, reply)
      ensures Valid()
    {
      ghost var before := View();
      isLoading := true;
      messages := messages + [Message(message, false)];
      ghost var sent := View();
      assert sent == Dispatched(before, message);
      if Succeeded(reply) {
        messages := messages + [Message(reply.response, true)];
        assert View() == sent.(messages := sent.messages + [Message(reply.response, true)]);
        PlayAudio(reply.response);
      } else {
        notices := notices + [Failure(SendFailedNotice)];
      }
      isLoading := false;
      assert View() == Step(before, Event.SendMessage(message, reply));
      assert Valid() by { StepConsistent(before, Event.SendMessage(message, reply)); }
    }

    method HandleFileUpload(file: File, reply: Reply)
      requires Valid()
      modifies this
      ensures View() == AfterFileUpload(old(View()), file, reply)
      ensures Valid()
    {
      isLoading := true;
      if Succeeded(reply) {
        messages := messages + [Message(UploadPrefix + file.name, false), Message(reply.response, true)];
        PlayAudio(reply.response);
      } else {
        notices := notices + [Failure(UploadFailedNotice)];
      }
      isLoading := false;
      assert View() == Step(old(View()), Event.UploadFile(file, reply));
      assert Valid() by { StepConsistent(old(View()), Event.UploadFile(file, reply)); }
    }

    method Unmount()
      modifies this
      ensures View() == AfterUnmount(old(View()))
    {
      if synth {
        speech := speech + [Cancel];
      }
    }
  }
}
