# DOJ chatbot: query cleaning, conversation page and input bar

This project models three parts of the DOJ assistant chatbot and proves properties about them:

- **Query normaliser.** This is `clean_text` in the Flask backend (module `TextCleaning`, `clean_text.dfy`).
  - Anything that is not a string cleans to `""`.
  - A string is lower-cased.
  - Every character outside `[a-zA-Z0-9\s]` is deleted.
  - Whitespace runs become one space and the ends are stripped.
  - The words that are stop words are dropped. The stop-word set is a parameter.
  - Python's whitespace is the exact `str.isspace()` set, which `\s`, `strip()` and `split()` share.
  - Lower-casing is exact for every character the filter can keep: A-Z; the Kelvin sign, which becomes `k`; and U+0130, which becomes `i` plus a combining dot. Every other non-ASCII character that is not whitespace is deleted by the filter whatever its case; non-ASCII whitespace (U+0085, U+00A0, U+2000-U+200A, ...) is kept by the filter and becomes a single space in the collapse.
- **Conversation page** (`Index` in `src/pages/Index.tsx`; module `Conversation`, `conversation.dfy`).
  - State: the message log, `isLoading`, `isMuted`, a log of speech-synthesiser commands (`cancel` / `speak`) and a log of toasts.
  - Each handler is a pure transition function on a `State` value. The class `ChatPage` has the same fields, and each of its methods is proved to perform exactly that transition.
  - A backend request and its reply form one atomic call; the reply is a parameter.
  - Sequences of user actions (`Run` over `Event`s) carry the properties that span several calls. These include:
    - the log is append-only and grows by exactly a transcript of the events;
    - every bot message directly follows a user message;
    - every `speak` directly follows a `cancel`;
    - the mute flag tracks the parity of the toggles;
    - a muted page stays silent.
- **Input bar** (`ChatInput` in `src/components/ChatInput.tsx`; module `ChatInputBar`, `chat_input.dfy`).
  - State: the draft, `isRecording`, the recogniser held in `recognitionRef`, and logs of recogniser commands, parent callbacks and toasts.
  - What the browser offers, and what a recogniser reports, are parameters of the handlers.
  - JavaScript's `trim()` is modelled with its exact whitespace set.
  - The class `ChatInput` keeps an invariant, `Tracked`:
    - the reference always holds the newest recogniser;
    - commands only go to recognisers that exist;
    - the bar only records while it holds a recogniser.

Shared types (`Option`, `File`, `Notice`) are in `common.dfy`.

Neither `sendMessage` nor `handleFileUpload` guards against a request in flight or against blank text (src/pages/Index.tsx:62-65, 94-96). Only the `disabled` attributes of the input bar's controls and the `trim()` check in the input bar's `handleSubmit` stand in the way. The model's `SendMessage` and `HandleFileUpload` therefore accept any text, blank or not, and the guards are stated as `ChatInputBar.Disabled`. Because each request is one atomic call, `isLoading` is false whenever a handler starts; the page invariant `Valid()` records this.

## Model

| member | source | states |
|---|---|---|
| TextCleaning.LowerChar | backend/app.py:37 | A-Z become the matching a-z; U+212A becomes "k"; U+0130 becomes "i" followed by U+0307; exactly the other characters are left unchanged; no result holds an upper-case letter |
| TextCleaning.Lower | backend/app.py:37 | `text.lower()` leaves no A-Z; text without A-Z, U+212A or U+0130 is unchanged |
| TextCleaning.LowerOne | backend/app.py:37 | lower-casing a one-character string is `LowerChar` of that character |
| TextCleaning.LowerAppend | backend/app.py:37 | lower-casing works character by character: the lowering of a concatenation is the concatenation of the lowerings |
| TextCleaning.Filter | backend/app.py:38 | every character left is in `[a-zA-Z0-9\s]` and comes from the input; every such input character survives; text made only of such characters is unchanged |
| TextCleaning.FilterAppend | backend/app.py:38 | the filter works character by character: it distributes over concatenation |
| TextCleaning.FilterIsSubsequence | backend/app.py:38 | the surviving characters keep their order: the result is a subsequence of the input |
| TextCleaning.Collapse | backend/app.py:39 | after `re.sub(r'\s+', ' ', ...)` no two spaces are adjacent; every other character comes from the input and is not whitespace; the result starts with a space iff the input starts with whitespace |
| TextCleaning.CollapseLast | backend/app.py:39 | the result ends with a space iff the input ends with whitespace |
| TextCleaning.CollapseWords | backend/app.py:39-40 | collapsing whitespace runs keeps the words: `split()` of the result equals `split()` of the input |
| TextCleaning.CollapseUnchanged | backend/app.py:39 | text of [a-z0-9] and single spaces is unchanged by the collapse |
| TextCleaning.LeadingSpace | backend/app.py:39 | the count of characters `lstrip()` drops stops at the first non-whitespace character |
| TextCleaning.LeadingSpaceIsSpace | backend/app.py:39 | every character `lstrip()` drops is whitespace |
| TextCleaning.TrailingSpace | backend/app.py:39 | the count of characters `rstrip()` drops stops at the last non-whitespace character |
| TextCleaning.TrailingSpaceIsSpace | backend/app.py:39 | every character `rstrip()` drops is whitespace |
| TextCleaning.StripLeft | backend/app.py:39 | the result does not start with whitespace; all-whitespace text gives "" |
| TextCleaning.StripRight | backend/app.py:39 | the result does not end with whitespace |
| TextCleaning.Strip | backend/app.py:39 | `strip()` leaves no whitespace at either end, keeps plain text plain, keeps "no double space", and maps all-whitespace text to "" |
| TextCleaning.StripUnchanged | backend/app.py:39 | text without whitespace at either end is its own strip |
| TextCleaning.SplitStripLeft | backend/app.py:39-40 | `lstrip()` keeps the words |
| TextCleaning.SplitStripRight | backend/app.py:39-40 | `rstrip()` keeps the words |
| TextCleaning.StripWords | backend/app.py:39-40 | `strip()` keeps the words |
| TextCleaning.Normalize | backend/app.py:37-39 | lower, filter, collapse and strip give a canonical string: [a-z0-9] words joined by single spaces, with no space at either end; its words are exactly the words of the lowered, filtered query; a canonical string is a fixed point |
| TextCleaning.NormalizeWords | backend/app.py:37-40 | collapsing and stripping the lowered, filtered query keeps its words |
| TextCleaning.NormalizeShape | backend/app.py:37-39 | the pipeline of lines 37-39 yields a canonical string and leaves a canonical string unchanged |
| TextCleaning.TakeToken | backend/app.py:40 | the first token is the longest whitespace-free prefix |
| TextCleaning.Split | backend/app.py:40 | `str.split()` yields non-empty whitespace-free tokens |
| TextCleaning.Join | backend/app.py:40 | `' '.join(...)`; no contract of its own: `SplitJoin` (split undoes it) and `JoinCanonical` (it gives a canonical string) characterise it |
| TextCleaning.SplitConsChar | backend/app.py:40 | a non-whitespace character in front of text is a word of its own when the text is empty or starts with whitespace, and otherwise joins the first word |
| TextCleaning.SplitSpacePrefix | backend/app.py:40 | whitespace in front of text does not change its words |
| TextCleaning.SplitSpaceSuffix | backend/app.py:40 | whitespace after text does not change its words |
| TextCleaning.Keep | backend/app.py:40 | the stop-word filter keeps exactly the words that are not stop words; a list without stop words is unchanged |
| TextCleaning.KeepCounts | backend/app.py:40 | every occurrence of a word that is not a stop word is kept, and no occurrence of a stop word: the multiset of the result is that of the input with the stop words removed |
| TextCleaning.CleanText | backend/app.py:34-40 | a non-string gives ""; every result is canonical: lower-case ASCII letters and digits, single spaces, no space at either end |
| TextCleaning.SplitPlain | backend/app.py:38-40 | every token of text made of [a-z0-9] and spaces is a word of [a-z0-9] |
| TextCleaning.SplitJoin | backend/app.py:40 | splitting the space-join of tokens gives the tokens back |
| TextCleaning.JoinCanonical | backend/app.py:40 | the space-join of [a-z0-9] words is canonical |
| TextCleaning.KeepIsSubsequence | backend/app.py:40 | the kept words are a subsequence of the words, in their original order |
| TextCleaning.CleanTextWords | backend/app.py:37-40 | the words of the output are exactly the words of the lowered, filtered query minus the stop words, in order; they form a subsequence of the normalised words; each is an [a-z0-9] word and none is a stop word |
| TextCleaning.CleanTextNoStopWords | backend/app.py:40 | no word of any output is a stop word |
| TextCleaning.CleanTextJoinSplit | backend/app.py:40 | the output is the space-join of its own words |
| TextCleaning.CleanTextIdempotent | backend/app.py:34-40 | cleaning a cleaned value changes nothing, for any stop-word set |
| TextCleaning.KeepAllStopWords | backend/app.py:40 | a list made only of stop words is filtered to nothing |
| TextCleaning.OnlyStopWords | backend/app.py:38-40 | a query whose normalised words are all stop words cleans to "" |
| TextCleaning.PunctuationOnly | backend/app.py:37-40 | a query of whitespace and ASCII punctuation only has no words and cleans to "" |
| Conversation.Mounted | src/pages/Index.tsx:15-27 | the page starts with an empty log, not loading, not muted, with no speech and no toasts, and with the synthesiser flag the mount effect found |
| Conversation.AfterPlayAudio | src/pages/Index.tsx:29-47 | muted: nothing changes. Unmuted with a synthesiser: exactly `cancel` then `speak(text)` are issued. Unmuted without one: only the "Failed to play audio response" toast. Messages, loading and mute never change |
| Conversation.AfterToggleMute | src/pages/Index.tsx:49-60 | `isMuted` flips; the toast names the new state; speech is cancelled exactly when the new state is muted and a synthesiser exists; unmuting issues no cancel |
| Conversation.Dispatched | src/pages/Index.tsx:62-65 | before any reply, `isLoading` is true and the user's message is appended as the last element of the old log |
| Conversation.AfterSendMessage | src/pages/Index.tsx:62-92 | `isLoading` ends false. The user's message follows the old log. A reply without `error` adds exactly one bot message with `data.response` and plays it. An `error` field or a transport failure leaves the log as the old log plus the user's message and shows the send-failure toast |
| Conversation.AfterFileUpload | src/pages/Index.tsx:94-125 | `isLoading` ends false. Success appends exactly "Uploaded image: name" (user) and then the response (bot), and plays the response. Failure appends nothing and shows the upload-failure toast |
| Conversation.AfterUnmount | src/pages/Index.tsx:22-26 | unmounting cancels speech iff a synthesiser exists, and changes nothing else |
| Conversation.StepMessages | src/pages/Index.tsx:62-125 | each user action adds exactly its own messages to the log |
| Conversation.RunMessages | src/pages/Index.tsx:62-125 | after any sequence of actions the log is the old log followed by the transcript of those actions |
| Conversation.RunAppendOnly | src/pages/Index.tsx:62-125 | the old log is always a prefix of the new log |
| Conversation.RunNotLoading | src/pages/Index.tsx:62-125 | an idle page is idle again after any sequence of actions |
| Conversation.RunMuteParity | src/pages/Index.tsx:49-51 | `isMuted` after a sequence is the old value flipped once per toggle |
| Conversation.RunMutedSilent | src/pages/Index.tsx:29-30 | while muted and without toggles the speech log never changes, for sends made through the current render's handler |
| Conversation.TranscriptBots | src/pages/Index.tsx:77-115 | the transcript holds one bot message per answered request: the reply of a send (lines 77-82) or of an upload (lines 111-115) |
| Conversation.RunBots | src/pages/Index.tsx:77-115 | the number of bot messages grows by exactly the number of answered requests |
| Conversation.RunAnswers | src/pages/Index.tsx:62-125 | every bot message in the log directly follows a user message |
| Conversation.StepSpeech | src/pages/Index.tsx:29-60 | each action keeps every `speak` directly after a `cancel` |
| Conversation.RunSpeech | src/pages/Index.tsx:29-60 | every `speak` in the speech log directly follows a `cancel`, after any sequence of actions |
| Conversation.StepConsistent | src/pages/Index.tsx:49-125 | the page invariant holds after every action: not loading, replies follow user messages, speech is preceded by cancel |
| Conversation.ChatPage.constructor | src/pages/Index.tsx:15-27 | the mounted page is in the initial state and keeps the invariant |
| Conversation.ChatPage.PlayAudio | src/pages/Index.tsx:29-47 | performs exactly `AfterPlayAudio` on the page's fields |
| Conversation.ChatPage.ToggleMute | src/pages/Index.tsx:49-60 | performs exactly `AfterToggleMute` and keeps the invariant |
| Conversation.ChatPage.SendMessage | src/pages/Index.tsx:62-92 | performs exactly `AfterSendMessage` and keeps the invariant |
| Conversation.ChatPage.HandleFileUpload | src/pages/Index.tsx:94-125 | performs exactly `AfterFileUpload` and keeps the invariant |
| Conversation.ChatPage.Unmount | src/pages/Index.tsx:20-27 | performs exactly `AfterUnmount` |
| ChatInputBar.LeadingBlank | src/components/ChatInput.tsx:21 | the count of characters `trim()` drops at the front stops at the first non-whitespace character |
| ChatInputBar.LeadingBlankIsSpace | src/components/ChatInput.tsx:21 | every character `trim()` drops at the front is JavaScript whitespace |
| ChatInputBar.TrailingBlank | src/components/ChatInput.tsx:21 | the count of characters `trim()` drops at the back stops at the last non-whitespace character |
| ChatInputBar.TrailingBlankIsSpace | src/components/ChatInput.tsx:21 | every character `trim()` drops at the back is JavaScript whitespace |
| ChatInputBar.TrimStart | src/components/ChatInput.tsx:21 | the result does not start with whitespace |
| ChatInputBar.TrimEnd | src/components/ChatInput.tsx:21 | the result does not end with whitespace |
| ChatInputBar.Trim | src/components/ChatInput.tsx:21 | `trim()` is empty iff the text is all JavaScript whitespace; otherwise it has no whitespace at either end |
| ChatInputBar.TrimBlank | src/components/ChatInput.tsx:21 | trimming from both ends leaves nothing exactly when every character is whitespace |
| ChatInputBar.Initial | src/components/ChatInput.tsx:14-17 | the bar starts with an empty draft, not recording, with no recogniser, no commands, no upcalls and no toasts, and keeps `Tracked` |
| ChatInputBar.AfterSubmit | src/components/ChatInput.tsx:19-26 | `onSendMessage` is called iff the trimmed draft is non-empty, with the untrimmed draft; after a send the draft is ""; a blank draft changes nothing |
| ChatInputBar.AfterFileChange | src/components/ChatInput.tsx:28-34 | `onFileUpload` is called only when a file is selected, and with the first file; otherwise nothing changes |
| ChatInputBar.AfterStartRecording | src/components/ChatInput.tsx:36-85 | no recogniser class: only the "not supported" toast, with the reference and `isRecording` unchanged. A throwing constructor or `start()`: the "Could not start" toast and `isRecording` false. Success: a new recogniser in the reference, started with continuous=false, interimResults=false and lang en-US. Never turns recording on |
| ChatInputBar.AfterStopRecording | src/components/ChatInput.tsx:87-93 | no-op without a recogniser; otherwise stops it and clears `isRecording` |
| ChatInputBar.AfterMicClick | src/components/ChatInput.tsx:95-101 | while recording, it is exactly `AfterStopRecording` (stops the current recogniser, nothing else changes); otherwise exactly `AfterStartRecording`. A click never leaves the bar recording |
| ChatInputBar.AfterOnStart | src/components/ChatInput.tsx:52-56 | recording is on and "Listening..." is shown |
| ChatInputBar.AfterOnResult | src/components/ChatInput.tsx:58-66 | the transcript `results[0][0]` becomes the draft and is sent exactly once, with no trim or loading check, followed by the success toast, and nothing else changes; without a first alternative nothing changes |
| ChatInputBar.AfterOnError | src/components/ChatInput.tsx:68-72 | the toast "Error: code" is shown and recording is off |
| ChatInputBar.AfterOnEnd | src/components/ChatInput.tsx:74-77 | recording is off and nothing else changes |
| ChatInputBar.Disabled | src/components/ChatInput.tsx:112-147 | the file button, mic button and text field are disabled iff loading; the send button iff loading or the draft is blank |
| ChatInputBar.EnabledSubmitSends | src/components/ChatInput.tsx:141-143 | a submit through an enabled send button always sends the draft and clears it |
| ChatInputBar.ChatInput.constructor | src/components/ChatInput.tsx:14-17 | the new bar is `Initial()` and keeps `Tracked` |
| ChatInputBar.ChatInput.Edit | src/components/ChatInput.tsx:136 | the draft becomes the typed text; nothing else changes |
| ChatInputBar.ChatInput.HandleSubmit | src/components/ChatInput.tsx:19-26 | performs exactly `AfterSubmit` and keeps `Tracked` |
| ChatInputBar.ChatInput.HandleFileChange | src/components/ChatInput.tsx:28-34 | performs exactly `AfterFileChange` and keeps `Tracked` |
| ChatInputBar.ChatInput.StartRecording | src/components/ChatInput.tsx:36-85 | performs exactly `AfterStartRecording` and keeps `Tracked` |
| ChatInputBar.ChatInput.StopRecording | src/components/ChatInput.tsx:87-93 | performs exactly `AfterStopRecording` and keeps `Tracked` |
| ChatInputBar.ChatInput.HandleMicClick | src/components/ChatInput.tsx:95-101 | performs exactly `AfterMicClick` and keeps `Tracked` |
| ChatInputBar.ChatInput.OnStart | src/components/ChatInput.tsx:52-56 | performs exactly `AfterOnStart` and keeps `Tracked` |
| ChatInputBar.ChatInput.OnResult | src/components/ChatInput.tsx:58-66 | performs exactly `AfterOnResult` and keeps `Tracked` |
| ChatInputBar.ChatInput.OnError | src/components/ChatInput.tsx:68-72 | performs exactly `AfterOnError` and keeps `Tracked` |
| ChatInputBar.ChatInput.OnEnd | src/components/ChatInput.tsx:74-77 | performs exactly `AfterOnEnd` and keeps `Tracked` |

## Left out

- Dataset loading in backend/app.py (CSV reading, de-duplication, `fillna`, the `Cleaned_Prompt` column): file I/O and library calls.
- The stop-word list is not modelled. The set NLTK downloads is a parameter of `CleanText`.
- The embedding search, the cosine-similarity threshold, OCR and the Flask routes in backend/app.py: floating point behind foreign libraries, and HTTP plumbing.
- TextCleaning.LowerChar: Python's lower-casing of non-ASCII letters other than U+212A and U+0130 is not modelled. Those letters are left as they are. Both the letter and its lower-case form lie outside `[a-zA-Z0-9\s]`, so the filter deletes either one, and `CleanText` gives the same output.
- `fetch`, `FormData`, `response.json()`, the backend URLs and the timing of `async`/`await`: each request is one atomic call with its reply as a parameter.
  - As a result, the model does not capture overlapping requests. It also does not capture that `playAudio` reads the `isMuted` value of the render that started the request; the model uses the value current when the reply arrives.
- Conversation.AfterSendMessage and Conversation.RunMutedSilent: the mute flag is read when the send happens, which matches a send made through the current render's handler (the send button, the Enter key). A voice result is different. `recognition.onresult` is created in `startRecording` and calls the `onSendMessage` of the render in which the mic was clicked (src/components/ChatInput.tsx:52-64, src/pages/Index.tsx:187-191). That handler's `playAudio` tests the `isMuted` of that render (src/pages/Index.tsx:30). So a reply to speech is gated by the mute flag at the mic click, not at the send. Muting after the click and before speaking does not silence the reply. The mute-gating facts hold only for sends made through the current handler. This holds even though each request is atomic in the model.
- Conversation.Reply: a falsy `data.error` (absent, empty, `false`, `0`) is the empty string. A missing `data.response` is not distinguished from a string.
- `SpeechSynthesisUtterance` rate and pitch (both 1.0), the unused `audio` field of a message, and all `console` output: no effect on the state.
- A synthesiser that is present but fails inside `speak` is not modelled. The model takes the failure path exactly when `window.speechSynthesis` is missing.
- The recogniser's own behaviour (when it fires `onstart`, `onresult`, `onerror`, `onend`) is not modelled. Each callback is a method that the environment may call once a recogniser exists.
- `stop()` on a recogniser that has already ended is logged like any other stop.
- JSX rendering, CSS classes, icons, the hidden file input's `click()`, `src/components/ChatMessage.tsx` (presentation only) and `src/vite-env.d.ts` (type declarations only).
