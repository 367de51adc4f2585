# Interview turn-taking service, modelled in Dafny

The repository is a small Deno HTTP backend with a service for practice job
interviews against a hosted generative model. No route or controller calls
that service: the router registers only `/example`. The only logic it owns is in
`src/services/interviewService.ts`: three operations on an interview state
(`jobTitle`, `question`, `history`), where `history` is a sequence of
messages, each with a role (`user` or `model`) and a list of text parts.

- `startInterview` checks the job title. It returns the fixed opening
  question "Tell me about yourself." and a two-message history: the
  candidate's announcement of the role, then the opening question.
- `processResponse` checks the job title, the response and the history. It
  builds the chat it sends to the model and returns the input history
  extended by the candidate's turn and the model's reply. The reply also
  becomes the next `question`.
- `analyzeInterview` checks the job title and the history. It sends the
  history with a fixed analysis prompt and returns the history extended by
  that prompt and the model's analysis, with `question` cleared.

How the model is built:

- The generative model is the parameter `send: ChatRequest -> Result<string>`.
  It receives exactly what the code hands to `startChat` and `sendMessage`:
  the chat history and the message. It answers with the reply text or with
  the error the SDK throws. A thrown `Error` is `Err(message)`.
- JavaScript truthiness is explicit. An empty string is falsy. An absent
  `history` is `None` and fails. A present empty history is truthy, so it is
  accepted.
- `jobTitle` and `response` are plain strings. An absent string field is
  falsy exactly like `""`, so the guards treat the two the same.
- `processResponse` puts the candidate's response at the end of the chat
  history and also sends it as the message. `ModelView` takes the
  conversation the model answers to be the chat history followed by the sent
  message as a user turn. That is an assumption about the SDK's
  `sendMessage`, whose code is not part of this model. Under it the model
  sees the response twice, as two user turns in a row.
  `ResponseReachesModelTwice` states this.
- `Session.Continue` describes how a caller carries an interview forward. No
  such caller exists in the program; it follows the documented protocol. It
  calls `processResponse` once per response and passes on the history the
  previous call returned.

Modules: `Wrappers` (Option, Result), `Messages` (roles, messages, history
shape), `InterviewService` (the three operations and the chat requests they
build), `InterviewProperties` (lemmas relating them) and `Session`.

## Model

| member | source | states |
|---|---|---|
| Messages.AppendExchange | src/services/interviewService.ts:114-117 | extending a history keeps it as a prefix, adds exactly two messages, a `user` turn carrying the first text then a `model` turn carrying the second |
| Messages.ExchangesIff | src/services/interviewService.ts:10-14 | a history made of user-then-model exchanges is exactly one of even length with `user` at even positions and `model` at odd ones |
| Messages.ExchangesAppend | src/services/interviewService.ts:164-167 | appending a user turn then a model turn to a history of exchanges gives a history of exchanges |
| Messages.AppendExchangeValid | src/services/interviewService.ts:114-117 | appending an exchange keeps a history of exchanges in which every message has a part |
| InterviewService.StartInterview | src/services/interviewService.ts:44-67 | fails with "Job title is required" exactly when the job title is empty; otherwise keeps the job title, sets the question to "Tell me about yourself." and returns the announcement user message followed by the question as a model message |
| InterviewService.ResponseChat | src/services/interviewService.ts:90-108 | the chat sent to the model is the synthesised opening plus the response when the history is empty, otherwise the history plus the response; the sent message is the response |
| InterviewService.ProcessResponse | src/services/interviewService.ts:69-119 | fails with "Job title, response, and history are required" exactly when the job title or response is empty or the history is absent; otherwise fails with the model's error exactly when the model fails; on success keeps the job title, sets the question to the reply and returns the input history plus the user response and the model reply |
| InterviewService.AnalysisChat | src/services/interviewService.ts:147-157 | the chat sent for analysis is the unmodified history with the fixed analysis prompt as the message |
| InterviewService.AnalyzeInterview | src/services/interviewService.ts:121-169 | fails with "Job title and history are required" exactly when the job title is empty or the history is absent; otherwise fails with the model's error exactly when the model fails; on success keeps the job title, clears the question and returns the history plus the analysis prompt and the model's analysis |
| InterviewProperties.StartInterviewOpensExchange | src/services/interviewService.ts:56-65 | a started interview's history is one well-formed exchange with alternating roles |
| InterviewProperties.StartInterviewShapeIndependentOfTitle | src/services/interviewService.ts:51-65 | any two started interviews have the same question, the same length, the same roles and the same model message |
| InterviewProperties.ProcessResponseKeepsValid | src/services/interviewService.ts:114-117 | a successful response step turns a well-formed history into a well-formed history |
| InterviewProperties.AnalyzeInterviewKeepsValid | src/services/interviewService.ts:164-167 | a successful analysis turns a well-formed history into a well-formed history |
| InterviewProperties.ReturnedHistoryDropsSynthesisedOpening | src/services/interviewService.ts:90-117 | the returned history is the chat the model saw plus its reply, minus the synthesised opening; that opening never reaches the returned history unless the candidate typed the same text |
| InterviewProperties.ResponseReachesModelTwice | src/services/interviewService.ts:95-108 | the conversation the model answers ends with the candidate's response twice as user turns, so its roles never alternate |
| InterviewProperties.AnalysisRecordsWhatModelSaw | src/services/interviewService.ts:147-167 | the returned analysis history is exactly the conversation the model answered followed by its analysis |
| InterviewProperties.ValidationPrecedesModelCall | src/services/interviewService.ts:72-74 | an input rejected by either guard yields the same error whatever the model would answer |
| InterviewProperties.EmptyHistoryAccepted | src/services/interviewService.ts:90-93 | a present empty history is accepted, and the result holds only the response and the reply, not the synthesised opening |
| Session.ContinueExtends | src/services/interviewService.ts:111-117 | after n carried-forward responses the history has grown by 2n, keeps its old prefix, holds the responses in order as user turns, keeps the job title and stays well formed |
| Session.ContinueRejectsEmptyResponse | src/services/interviewService.ts:72-74 | a carried-forward session with an empty response anywhere fails |

## Left out

- API-key lookup, the fatal error when it is missing, and the construction of the client and model name (`src/services/interviewService.ts:36-42`). This happens at process start and is foreign SDK code.
- `getGenerativeModel`, `startChat` and `sendMessage` belong to an SDK that is not modelled. `getGenerativeModel` and `startChat` build a local client and chat session; only `sendMessage` goes over the network. All three are replaced by the `send` parameter. Asynchrony (`await`) is not modelled.
- InterviewService.AnalyzeInterview: assumes that the chat session does not change the `history` array it is given. `analyzeInterview` passes the caller's own array to `startChat` and spreads it again after `sendMessage` returns. `processResponse` passes a fresh copy instead. `send` is a pure function, so the model cannot show a session that appends each successful exchange to that same array. If the SDK does that, the real `analyzeInterview` would return the analysis exchange twice, four messages longer than its input, not two.
- The generation settings (`temperature: 0.7`, `maxOutputTokens` 1000 and 2000) are only passed to the SDK and are not modelled.
- The `systemInstruction` strings are built but never passed to the model. They have no observable effect and are not modelled.
- The commented-out history reformatting in `analyzeInterview` is dead code.
- `src/services/conversationService.ts` is not part of this model. It is a wrapper over `generateContent` that caches the last reply in a module-level variable.
- `src/services/generativeAiService.ts`, the controllers, router, app, config and dependency re-exports are HTTP and configuration plumbing, and `tests/exampleController.test.ts` is a test against a live server. None of them is part of this model.
- Absent `jobTitle` or `response` fields are not separate inputs. They are falsy exactly like the empty string, so the guards give the same result.
- Non-string JSON values in the request body (numbers, objects in place of strings or of the message array) are not modelled. The inputs are typed as the TypeScript interfaces declare them.
