/** The input bar of the chat page (`ChatInput` in src/components/ChatInput.tsx):
    the draft message, the voice-recording flag and the current speech
    recogniser. The parent's callbacks, the recogniser's commands and the
    toasts are logs; what the browser offers and what the recogniser reports
    are parameters. */
module ChatInputBar {
  import opened Common

  // ---------------------------------------------------------------------------
  // String.prototype.trim

  /** The characters `trim()` removes: ECMAScript WhiteSpace and LineTerminator. */
  predicate IsJsSpace(c: char) {
    var n := c as int;
    9 <= n <= 13 || n == 32 || n == 0xA0 || n == 0x1680 || 0x2000 <= n <= 0x200A
    || n == 0x2028 || n == 0x2029 || n == 0x202F || n == 0x205F || n == 0x3000 || n == 0xFEFF
  }

  ghost predicate IsBlank(s: string) {
    forall i :: 0 <= i < |s| ==> IsJsSpace(s[i])
  }

  /** The number of whitespace characters `trimStart()` removes. */
  function LeadingBlank(s: string): (n: nat)
    ensures n <= |s|
    ensures n < |s| ==> !IsJsSpace(s[n])
  {
    if s != [] && IsJsSpace(s[0]) then 1 + LeadingBlank(s[1..]) else 0
  }

  /** `trimStart()` removes only whitespace. */
  lemma {:induction false} LeadingBlankIsSpace(s: string)
    ensures forall i :: 0 <= i < LeadingBlank(s) ==> IsJsSpace(s[i])
  {
    if s != [] && IsJsSpace(s[0]) {
      LeadingBlankIsSpace(s[1..]);
      forall i | 0 <= i < LeadingBlank(s) ensures IsJsSpace(s[i]) {
        if i > 0 { assert s[i] == s[1..][i - 1]; }
      }
    }
  }

  /** The number of whitespace characters `trimEnd()` removes. */
  function TrailingBlank(s: string): (n: nat)
    ensures n <= |s|
    ensures n < |s| ==> !IsJsSpace(s[|s| - 1 - n])
  {
    if s != [] && IsJsSpace(s[|s| - 1]) then 1 + TrailingBlank(s[..|s| - 1]) else 0
  }

  /** `trimEnd()` removes only whitespace. */
  lemma {:induction false} TrailingBlankIsSpace(s: string)
    ensures forall i :: |s| - TrailingBlank(s) <= i < |s| ==> IsJsSpace(s[i])
  {
    if s != [] && IsJsSpace(s[|s| - 1]) {
      var t := s[..|s| - 1];
      TrailingBlankIsSpace(t);
      forall i | |s| - TrailingBlank(s) <= i < |s| ensures IsJsSpace(s[i]) {
        if i < |s| - 1 { assert s[i] == t[i]; }
      }
    }
  }

  /** `s.trimStart()`. */
  function TrimStart(s: string): (r: string)
    ensures r != [] ==> !IsJsSpace(r[0])
  {
    s[LeadingBlank(s)..]
  }

  /** `s.trimEnd()`. */
  function TrimEnd(s: string): (r: string)
    ensures r != [] ==> !IsJsSpace(r[|r| - 1])
  {
    s[..|s| - TrailingBlank(s)]
  }

  /** `s.trim()`: empty exactly when `s` is all whitespace, and otherwise
      without whitespace at either end. */
  function Trim(s: string): (r: string)
    ensures |r| <= |s|
    ensures r == [] <==> IsBlank(s)
    ensures r != [] ==> !IsJsSpace(r[0]) && !IsJsSpace(r[|r| - 1])
  {
    TrimBlank(s);
    TrimEnds(s);
    TrimEnd(TrimStart(s))
  }

  /** Trimming leaves nothing exactly when there is nothing but whitespace. */
  lemma TrimBlank(s: string)
    ensures TrimEnd(TrimStart(s)) == [] <==> IsBlank(s)
  {
    var left := TrimStart(s);
    TrailingBlankIsSpace(left);
    LeadingBlankIsSpace(s);
  }

  /** What trimming leaves starts and ends with non-whitespace. */
  lemma TrimEnds(s: string)
    ensures TrimEnd(TrimStart(s)) != [] ==>
      !IsJsSpace(TrimEnd(TrimStart(s))[0]) && !IsJsSpace(TrimEnd(TrimStart(s))[|TrimEnd(TrimStart(s))| - 1])
  {
    var left := TrimStart(s);
    var r := TrimEnd(left);
    assert r != [] ==> r[0] == left[0];
  }

  // ---------------------------------------------------------------------------
  // The bar's state

  /** The recogniser settings `startRecording` applies before `start()`. */
  datatype Settings = Settings(continuous: bool, interimResults: bool, lang: string)

  const RecognizerSettings := Settings(false, false, "en-US")

  /** A call on a recogniser, identified by the order in which it was created. */
  datatype Command = Start(id: nat, settings: Settings) | Stop(id: nat)

  /** A call of one of the parent's callbacks. */
  datatype Upcall = SendMessage(text: string) | FileUpload(file: File)

  /** What the browser does when `startRecording` runs: no recogniser class, a
      constructor that throws, a `start()` that throws, or a working recogniser. */
  datatype Capability = Unsupported | ConstructorThrows | StartThrows | Supported

  /** The four controls of the bar. */
  datatype Control = FileButton | MicButton | TextField | SendButton

  const UnsupportedNotice := "Speech recognition is not supported in your browser"
  const StartFailedNotice := "Could not start speech recognition"
  const ListeningNotice := "Listening..."
  const CapturedNotice := "Voice captured and sent!"

  /** The bar between two events. `recognizer` is `recognitionRef.current`;
      `created` counts the recognisers constructed so far. */
  datatype Bar = Bar(
    message: string,
    isRecording: bool,
    recognizer: Option<nat>,
    created: nat,
    commands: seq<Command>,
    upcalls: seq<Upcall>,
    notices: seq<Notice>)

  /** The reference always holds the newest recogniser, every command goes to
      a recogniser that exists, and the bar records only while it holds one. */
  ghost predicate Tracked(b: Bar) {
    (b.recognizer.None? <==> b.created == 0)
    && (b.recognizer.Some? ==> b.recognizer.value == b.created - 1)
    && (forall k :: 0 <= k < |b.commands| ==> b.commands[k].id < b.created)
    && (b.isRecording ==> b.recognizer.Some?)
  }

  function Initial(): (r: Bar)
    ensures Tracked(r) && r.message == [] && !r.isRecording && r.recognizer.None?
    ensures r.created == 0 && r.commands == [] && r.upcalls == [] && r.notices == []
  {
    Bar("", false, None, 0, [], [], [])
  }

  /** `handleSubmit`: sends the untrimmed draft and clears it, unless the draft is blank. */
  function AfterSubmit(b: Bar): (r: Bar)
    ensures !IsBlank(b.message) <==> r.upcalls == b.upcalls + [SendMessage(b.message)]
    ensures !IsBlank(b.message) ==> r == b.(message := "", upcalls := r.upcalls)
    ensures IsBlank(b.message) ==> r == b
    ensures Tracked(b) ==> Tracked(r)
  {
    if Trim(b.message) != [] then b.(message := "", upcalls := b.upcalls + [SendMessage(b.message)])
    else b
  }

  /** `handleFileChange`: uploads the first selected file, if there is one. */
  function AfterFileChange(b: Bar, files: Option<seq<File>>): (r: Bar)
    ensures files.Some? && |files.value| > 0 ==> r == b.(upcalls := b.upcalls + [FileUpload(files.value[0])])
    ensures files.None? || files.value == [] ==> r == b
    ensures Tracked(b) ==> Tracked(r)
  {
    if files.Some? && |files.value| > 0 then b.(upcalls := b.upcalls + [FileUpload(files.value[0])])
    else b
  }

  /** `startRecording`. A new recogniser replaces the reference and is started
      with the fixed settings; recording begins only when it reports `onstart`. */
  function AfterStartRecording(b: Bar, cap: Capability): (r: Bar)
    ensures r.message == b.message && r.upcalls == b.upcalls
    ensures r.isRecording ==> b.isRecording
    ensures cap == Unsupported ==> r == b.(notices := b.notices + [Failure(UnsupportedNotice)])
    ensures cap == ConstructorThrows ==>
      r == b.(isRecording := false, notices := b.notices + [Failure(StartFailedNotice)])
    ensures cap == StartThrows ==>
      r == b.(isRecording := false, recognizer := Some(b.created), created := b.created + 1,
              notices := b.notices + [Failure(StartFailedNotice)])
    ensures cap == Supported ==>
      r == b.(recognizer := Some(b.created), created := b.created + 1,
              commands := b.commands + [Start(b.created, RecognizerSettings)])
    ensures Tracked(b) ==> Tracked(r)
  {
    match cap
    case Unsupported => b.(notices := b.notices + [Failure(UnsupportedNotice)])
    case ConstructorThrows => b.(isRecording := false, notices := b.notices + [Failure(StartFailedNotice)])
    case StartThrows =>
      b.(isRecording := false, recognizer := Some(b.created), created := b.created + 1,
         notices := b.notices + [Failure(StartFailedNotice)])
    case Supported =>
      b.(recognizer := Some(b.created), created := b.created + 1,
         commands := b.commands + [Start(b.created, RecognizerSettings)])
  }

  /** `stopRecording`: stops the recogniser in the reference, if any. */
  function AfterStopRecording(b: Bar): (r: Bar)
    ensures b.recognizer.None? ==> r == b
    ensures b.recognizer.Some? ==>
      r == b.(isRecording := false, commands := b.commands + [Stop(b.recognizer.value)])
    ensures Tracked(b) ==> Tracked(r) && !r.isRecording
  {
    if b.recognizer.Some? then b.(isRecording := false, commands := b.commands + [Stop(b.recognizer.value)])
    else b
  }

  /** `handleMicClick`: a click never leaves the bar recording; while
      recording it stops the current recogniser, otherwise it starts a new one. */
  function AfterMicClick(b: Bar, cap: Capability): (r: Bar)
    requires Tracked(b)
    ensures Tracked(r) && !r.isRecording
    ensures b.isRecording ==> r.commands == b.commands + [Stop(b.created - 1)] && r.created == b.created
    ensures b.isRecording ==> r == AfterStopRecording(b)
    ensures !b.isRecording ==> r == AfterStartRecording(b, cap)
    ensures !b.isRecording && cap == Supported ==>
      r.recognizer == Some(b.created) && r.commands == b.commands + [Start(b.created, RecognizerSettings)]
  {
    if b.isRecording then AfterStopRecording(b) else AfterStartRecording(b, cap)
  }

  /** `onstart` of a recogniser. */
  function AfterOnStart(b: Bar): (r: Bar)
    ensures r.isRecording
    ensures r == b.(isRecording := true, notices := b.notices + [Info(ListeningNotice)])
    ensures Tracked(b) && b.recognizer.Some? ==> Tracked(r)
  {
    b.(isRecording := true, notices := b.notices + [Info(ListeningNotice)])
  }

  /** `onresult`: the first alternative of the first result becomes the draft
      and is sent at once, blank or not. Without one, reading it throws and
      nothing changes. */
  function AfterOnResult(b: Bar, results: seq<seq<string>>): (r: Bar)
    ensures |results| > 0 && |results[0]| > 0 ==>
      r == b.(message := results[0][0], upcalls := b.upcalls + [SendMessage(results[0][0])],
              notices := b.notices + [Success(CapturedNotice)])
    ensures |results| == 0 || |results[0]| == 0 ==> r == b
    ensures Tracked(b) ==> Tracked(r)
  {
    if |results| > 0 && |results[0]| > 0 then
      var transcript := results[0][0];
      b.(message := transcript, upcalls := b.upcalls + [SendMessage(transcript)],
         notices := b.notices + [Success(CapturedNotice)])
    else b
  }

  /** `onerror`: reports the error code and stops recording. */
  function AfterOnError(b: Bar, code: string): (r: Bar)
    ensures !r.isRecording
    ensures r == b.(isRecording := false, notices := b.notices + [Failure("Error: " + code)])
    ensures Tracked(b) ==> Tracked(r)
  {
    b.(isRecording := false, notices := b.notices + [Failure("Error: " + code)])
  }

  /** `onend`. */
  function AfterOnEnd(b: Bar): (r: Bar)
    ensures !r.isRecording && r == b.(isRecording := false)
    ensures Tracked(b) ==> Tracked(r)
  {
    b.(isRecording := false)
  }

  /** The `disabled` attribute of each control: all four while the page is
      loading, and the send button also while the draft is blank. */
  function Disabled(control: Control, message: string, isLoading: bool): (r: bool)
    ensures control != SendButton ==> (r <==> isLoading)
    ensures control == SendButton ==> (r <==> isLoading || IsBlank(message))
  {
    if control == SendButton then Trim(message) == [] || isLoading else isLoading
  }

  /** Submitting through an enabled send button always sends the draft. */
  lemma EnabledSubmitSends(b: Bar, isLoading: bool)
    requires !Disabled(SendButton, b.message, isLoading)
    ensures AfterSubmit(b).upcalls == b.upcalls + [SendMessage(b.message)]
    ensures AfterSubmit(b).message == ""
  {
  }

  // ---------------------------------------------------------------------------
  // The bar as an object

  class ChatInput {
    var message: string
    var isRecording: bool
    var recognizer: Option<nat>
    var created: nat
    var commands: seq<Command>
    var upcalls: seq<Upcall>
    var notices: seq<Notice>

    function View(): Bar
      reads this
    {
      Bar(message, isRecording, recognizer, created, commands, upcalls, notices)
    }

    ghost predicate Valid()
      reads this
    {
      Tracked(View())
    }

    constructor()
      ensures View() == Initial() && Valid()
    {
      message := "";
      isRecording := false;
      recognizer := None;
      created := 0;
      commands := [];
      upcalls := [];
      notices := [];
    }

    /** The text field's `onChange`. */
    method Edit(text: string)
      requires Valid()
      modifies this
      ensures View() == old(View()).(message := text) && Valid()
    {
      message := text;
    }

    method HandleSubmit()
      requires Valid()
      modifies this
      ensures View() == AfterSubmit(old(View())) && Valid()
    {
      if Trim(message) != [] {
        upcalls := upcalls + [SendMessage(message)];
        message := "";
      }
    }

    method HandleFileChange(files: Option<seq<File>>)
      requires Valid()
      modifies this
      ensures View() == AfterFileChange(old(View()), files) && Valid()
    {
      if files.Some? && |files.value| > 0 {
        var file := files.value[0];
        upcalls := upcalls + [FileUpload(file)];
      }
    }

    method StartRecording(cap: Capability)
      requires Valid()
      modifies this
      ensures View() == AfterStartRecording(old(View()), cap) && Valid()
    {
      if cap == Unsupported {
        notices := notices + [Failure(UnsupportedNotice)];
        return;
      }
      if cap == ConstructorThrows {
        notices := notices + [Failure(StartFailedNotice)];
        isRecording := false;
        return;
      }
      var recognition := created;
      created := created + 1;
      recognizer := Some(recognition);
      if cap == StartThrows {
        notices := notices + [Failure(StartFailedNotice)];
        isRecording := false;
      } else {
        commands := commands + [Start(recognition, RecognizerSettings)];
      }
    }

    method StopRecording()
      requires Valid()
      modifies this
      ensures View() == AfterStopRecording(old(View())) && Valid()
    {
      if recognizer.Some? {
        commands := commands + [Stop(recognizer.value)];
        isRecording := false;
      }
    }

    method HandleMicClick(cap: Capability)
      requires Valid()
      modifies this
      ensures View() == AfterMicClick(old(View()), cap) && Valid()
    {
      if isRecording {
        StopRecording();
      } else {
        StartRecording(cap);
      }
    }

    /** Recogniser callbacks; they only fire once a recogniser exists. */
    method OnStart()
      requires Valid() && recognizer.Some?
      modifies this
      ensures View() == AfterOnStart(old(View())) && Valid()
    {
      isRecording := true;
      notices := notices + [Info(ListeningNotice)];
    }

    method OnResult(results: seq<seq<string>>)
      requires Valid()
      modifies this
      ensures View() == AfterOnResult(old(View()), results) && Valid()
    {
      if |results| == 0 || |results[0]| == 0 {
        return;
      }
      var transcript := results[0][0];
      message := transcript;
      upcalls := upcalls + [SendMessage(transcript)];
      notices := notices + [Success(CapturedNotice)];
    }

    method OnError(code: string)
      requires Valid()
      modifies this
      ensures View() == AfterOnError(old(View()), code) && Valid()
    {
      notices := notices + [Failure("Error: " + code)];
      isRecording := false;
    }

    method OnEnd()
      requires Valid()
      modifies this
      ensures View() == AfterOnEnd(old(View())) && Valid()
    {
      isRecording := false;
    }

  }
}
