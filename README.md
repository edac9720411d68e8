# ChatGPT Helper: a Dafny model

ChatGPT Helper is a VS Code extension that relays questions about source files to the OpenAI chat completion API. It has three parts:

- **The extension host's controller** (`ChatGPTViewProvider`).
  - It keeps the list of files the user selected.
  - On each question it builds a prompt: an excerpt of every selected file, then the question, cut to 4096 characters.
  - It posts the answer back to the chat panel.
  - It dispatches the panel's messages: `analyzeAndChat`, `selectFiles` and `removeFile`.
- **The chat panel's script.**
  - It keeps an append-only chat log and a list of file chips.
  - It cuts a message into text and code at triple backticks.
  - It guesses the language of each code block.
  - It chooses an icon for each file.
  - It refuses a question that is empty after trimming.
- **The bundled environment-file loader** (dotenv 16.4.5).
  - It parses `.env` values into an object created as `{}`, so a line with the key `__proto__` is lost.
  - It merges them into `process.env`, with an override flag.
  - It loads several files in turn, remembering the last failure.
  - It chooses between plain and encrypted (`.env.vault`) files.

The model has six modules:

- `Wrappers`: `Option`.
- `Text`: the JavaScript string operations the code relies on: `includes`, `split`, `join`, `trim`, ASCII `toLowerCase`, and the global replacement of a two-character escape.
- `Protocol`: the messages between the panel and the host.
- `Controller`: `src/extension.ts`.
- `Webview`: `resources/chatgpt-helper.js`.
- `Dotenv`: the loader in `dist/extension.js`.

The parts that change state are classes:

- `Controller.ChatGPTViewProvider` holds the selected files, whether the view exists, and the messages posted to it.
- `Webview.ChatPanel` holds the chat log, the chips, the input box, the busy indicator and the messages posted to the host.
- `Dotenv.EnvObject` is a JavaScript object used as a string dictionary.

Their loops are methods, each proved against a specification function or a full contract:

- `RenderParts`
- `UpdateSelectedFiles`
- `FindFirst`
- `Parse`
- `Populate`
- `VaultPath`
- `ConfigDotenv`

The outside world enters as parameters:

- the file system, as a map from path to file status;
- the API key;
- what the network part of the request returned;
- the file picker's result;
- the readable `.env` files, each given as the lines the tokeniser matched in it;
- the set of existing paths;
- the outcome of vault decryption.

The fence count follows the code. The script gives N + 1 pieces for N fences, and the odd-indexed ones are code. So a message with N fences shows floor((N + 1) / 2) code blocks, not floor(N / 2): an unclosed last fence still opens a code block (`Webview.FenceCounts`).

## Model

| member | source | states |
|---|---|---|
| Controller.Basename | src/extension.ts:201 | Once trailing separators are dropped, the name is what follows the last `/` (so it holds no `/`), and a path whose only `/` are trailing is its own name without them |
| Controller.FileHeader | src/extension.ts:201 | Definition: the header line with the file's base name; properties in ExcerptOfReadable |
| Controller.ClipContent | src/extension.ts:202-207 | Text of at most 1000 characters is kept whole; longer text keeps its first 1000 characters and ends with the cut marker |
| Controller.ExcerptOfReadable | src/extension.ts:199-208 | A regular file's excerpt is the header with its base name, then its text, or its first 1000 characters and the cut marker |
| Controller.ExcerptOfUnreadable | src/extension.ts:198-214 | A path whose stat or read fails gives only the error marker; a path that is not a regular file gives the empty string |
| Controller.Excerpt | src/extension.ts:196-215 | Definition of the `map` callback; properties in ExcerptOfReadable and ExcerptOfUnreadable |
| Controller.AnalyzeSelectedFiles | src/extension.ts:194-216 | Definition: the excerpts joined by newlines; properties in AnalyzeAppend and AnalyzeReadsOnlySelected |
| Controller.Excerpts | src/extension.ts:195-215 | One excerpt per selected file |
| Controller.AnalyzeAppend | src/extension.ts:194-216 | The text for a concatenated list is the text for the first part, a newline, then the text for the second: files are handled independently and in list order |
| Controller.AnalyzeReadsOnlySelected | src/extension.ts:194-216 | Two file systems that agree on the selected paths give the same text |
| Controller.AssemblePrompt | src/extension.ts:131-132 | Definition of the prompt template; properties in PromptFor, QuestionCutOff and ShortAndLongFile |
| Controller.LimitPrompt | src/extension.ts:134-137 | The sent prompt is a prefix of the assembled one and at most 4096 characters long; it is unchanged when short and exactly 4096 characters when long |
| Controller.PromptFor | src/extension.ts:131-137 | The prompt for a question is a prefix of the fixed head, the excerpts, the question head and the question, and at most 4096 characters long |
| Controller.QuestionCutOff | src/extension.ts:132-137 | When the head and the excerpts already reach 4096 characters, the prompt sent is the same whatever the question |
| Controller.ShortAndLongFile | src/extension.ts:131-132 | For a short and a long readable file, the assembled prompt is both headers, the first file whole, the second cut with the marker, then the question |
| Controller.PlanResponse | src/extension.ts:219-245 | A missing or empty key gives the fixed reply and no request; otherwise one POST to the completions URL with the bearer key, `gpt-3.5-turbo`, the system turn, the user's prompt and 500 tokens |
| Controller.ChatReply | src/extension.ts:139-152 | Definition: the fixed reply without a key, the network's answer, or the failure text when the request throws; properties in MissingKeyNeedsNoNetwork and ProcessChatRequest |
| Controller.MissingKeyNeedsNoNetwork | src/extension.ts:220-225 | Without a key the reply is the fixed message whatever the network would do |
| Controller.ChatGPTViewProvider.constructor | src/extension.ts:35-40 | No files are selected, there is no view, and nothing is posted |
| Controller.ChatGPTViewProvider.ResolveWebviewView | src/extension.ts:42-48 | From then on messages reach the view |
| Controller.ChatGPTViewProvider.PostMessage | src/extension.ts:142-145 | A message is delivered only once the view exists |
| Controller.ChatGPTViewProvider.RemoveFileHandler | src/extension.ts:168-182 | A valid index removes exactly that entry, keeps the order of the rest and posts the new list; any other index changes nothing and posts nothing |
| Controller.ChatGPTViewProvider.SelectFilesHandler | src/extension.ts:155-166 | The picked paths replace the list (a dismissed dialog empties it) and are posted; a failing picker changes nothing |
| Controller.ChatGPTViewProvider.ProcessChatRequest | src/extension.ts:125-153 | A missing or empty question changes nothing; otherwise exactly one reply is posted, the answer to the limited prompt built from the selected files |
| Controller.ChatGPTViewProvider.HandleWebviewMessage | src/extension.ts:112-123 | Each tag has its handler's full effect on the list and on the posted messages, including the failing picker and the missing view; an unknown tag changes nothing |
| Text.IndexOf | resources/chatgpt-helper.js:108 | Definition: `IndexOfFrom` from the start; properties in IndexOfFrom |
| Text.Contains | resources/chatgpt-helper.js:107 | Definition: an occurrence exists; properties in IndexOfFrom and ContainsPrefixOf |
| Text.IndexOfFrom | resources/chatgpt-helper.js:107 | The result is the first occurrence at or after the start, and none means no occurrence |
| Text.ContainsPrefixOf | resources/chatgpt-helper.js:161-162 | Whatever contains a string contains each of its prefixes |
| Text.Split | resources/chatgpt-helper.js:108 | There is at least one piece; further properties in SplitLength, SplitJoin, SplitPiecesAreFree and LastPieceOfSplit |
| Text.Join | src/extension.ts:216 | Definition; properties in SplitJoin and JoinAppend |
| Text.SplitLength | resources/chatgpt-helper.js:108 | N separators give N + 1 pieces |
| Text.SplitJoin | resources/chatgpt-helper.js:108 | Joining the pieces with the separator gives the string back |
| Text.SplitPiecesAreFree | resources/chatgpt-helper.js:108 | No piece contains the separator |
| Text.LastPieceOfSplit | resources/chatgpt-helper.js:228 | The last piece is the text after the last separator, or the whole string when there is none |
| Text.JoinAppend | src/extension.ts:216 | Joining two non-empty lists puts one separator between their joins |
| Text.IsWhiteSpace | resources/chatgpt-helper.js:71 | Definition: the white space and line terminator characters `trim` removes; used by Trim and TrimPadded |
| Text.TrimStart | resources/chatgpt-helper.js:71 | The result is a suffix that does not start with white space, and everything cut off is white space |
| Text.TrimEnd | resources/chatgpt-helper.js:71 | The result is a prefix that does not end with white space, and everything cut off is white space |
| Text.Trim | resources/chatgpt-helper.js:71 | The result is a part of the input with only white space before and after it, and neither starts nor ends with white space |
| Text.TrimPadded | dist/extension.js:38 | Trimming white space padding around a string that neither starts nor ends with white space gives that string back |
| Text.TrimEmpty | resources/chatgpt-helper.js:71-78 | Trimming gives the empty string exactly for all-white-space input |
| Text.StripTrailing | src/extension.ts:201 | The result is a prefix that does not end with the character, and everything cut off is that character; used by Basename |
| Text.ToLowerAscii | resources/chatgpt-helper.js:228 | The result has the input's length; properties in ReachableInheritedKeys and FileTypeIcon |
| Text.ExpandEscape | dist/extension.js:48-49 | The result is never longer than the input; properties in ExpandEscapeComplete and ExpandEscapeKeepsOthersAbsent |
| Text.ExpandEscapeComplete | dist/extension.js:48-49 | After the replacement no escape of that letter is left |
| Text.ExpandEscapeKeepsOthersAbsent | dist/extension.js:48-49 | Expanding `\r` does not create a new `\n` escape |
| Webview.DetectCodeLanguage | resources/chatgpt-helper.js:157-189 | Definition: the first rule that matches; properties in DetectionOrder and ShadowedTests |
| Webview.DetectionOrder | resources/chatgpt-helper.js:157-189 | `<?php` decides PHP whatever else occurs; otherwise a JavaScript keyword decides JavaScript; Java exactly when no earlier rule fires and both Java markers occur |
| Webview.ShadowedTests | resources/chatgpt-helper.js:160-185 | Code containing `import ` or `export ` is already PHP or JavaScript, so Python needs `def ` or `print(` and TypeScript needs `type ` or `interface ` |
| Webview.FileExtension | resources/chatgpt-helper.js:228 | The extension has no dot and ends the name after its last dot; a dot-less name is its own extension |
| Webview.FileTypeIcon | resources/chatgpt-helper.js:227-237 | `json`, `ts` and `html` (any letter case) get their icons; every other extension gets the default icon |
| Webview.IconLookupAsWritten | resources/chatgpt-helper.js:229-236 | The lookup returns an inherited member exactly when the extension names a member of `Object.prototype` |
| Webview.ConstructorExtensionHasNoIcon | resources/chatgpt-helper.js:236 | A file ending in `.constructor` gets the inherited `constructor` member instead of an icon URL |
| Webview.InheritedKeyLookup | resources/chatgpt-helper.js:229-236 | Every extension naming an inherited member reaches that member |
| Webview.ReachableInheritedKeys | resources/chatgpt-helper.js:228-236 | A lower-cased extension can only reach the inherited members `constructor` and `__proto__` |
| Webview.IconLookupAgreesOtherwise | resources/chatgpt-helper.js:227-237 | For every other extension the lookup as written gives the same icon as `FileTypeIcon` |
| Webview.Segments | resources/chatgpt-helper.js:109-147 | One segment per piece; its shape is stated by RenderParts, CodeBlocksOfParts and FenceCounts |
| Webview.RenderedBody | resources/chatgpt-helper.js:107-151 | Definition: plain text without a fence, the segments of the split otherwise; properties in FenceCounts and RenderingKeepsText |
| Webview.RenderParts | resources/chatgpt-helper.js:108-148 | The loop gives one segment per piece: even pieces as text, odd pieces as code with their detected language |
| Webview.RenderMessage | resources/chatgpt-helper.js:102-151 | The entry holds the message cut at its fences, whose shape `FenceCounts` and `RenderingKeepsText` establish |
| Webview.CodeBlocksOfParts | resources/chatgpt-helper.js:109-115 | Of n pieces, floor(n / 2) become code blocks |
| Webview.FenceCounts | resources/chatgpt-helper.js:107-151 | N > 0 fences give N + 1 segments, floor((N + 1) / 2) of them code; no fence gives plain text |
| Webview.RenderingKeepsText | resources/chatgpt-helper.js:108-138 | The segments' texts joined by the fence give the message back, and no segment holds a fence |
| Webview.ChipFor | resources/chatgpt-helper.js:198-211 | Definition: the chip holds the name and its icon; properties in ChipMatchesOwnName and AddFileToList |
| Webview.ChipText | resources/chatgpt-helper.js:203-211 | Definition: the chip's text content, the name inside the markup's white space; properties in ChipMatchesOwnName and ChipMatchesLongerName |
| Webview.FindFirst | resources/chatgpt-helper.js:219-221 | The index found is the first whose chip passes the test; none means no chip passes |
| Webview.ChipMatchesOwnName | resources/chatgpt-helper.js:203-211 | A chip's text contains the name it was made for |
| Webview.ChipMatchesLongerName | resources/chatgpt-helper.js:219-221 | A name is also found in the chip of any longer name that starts with it |
| Webview.RemovingOneChip | resources/chatgpt-helper.js:222-224 | Removing one chip removes exactly one copy of its name from the names shown |
| Webview.ChatPanel.constructor | resources/chatgpt-helper.js:28-32 | The log, the chips, the input and the outbox start empty, and the panel is not busy |
| Webview.ChatPanel.AddMessageToChat | resources/chatgpt-helper.js:102-155 | Exactly one rendered entry is appended to the log |
| Webview.ChatPanel.HandleAnalyzeAndChat | resources/chatgpt-helper.js:70-92 | Input empty after trimming changes nothing; otherwise the trimmed question is posted (when the host API exists), one user entry is appended, the input is cleared and the panel is busy |
| Webview.ChatPanel.AddFileToList | resources/chatgpt-helper.js:198-214 | One chip, with the file's icon, is appended |
| Webview.ChatPanel.UpdateSelectedFiles | resources/chatgpt-helper.js:191-196 | The chips are rebuilt: one per path, in order |
| Webview.ChatPanel.RemoveFile | resources/chatgpt-helper.js:216-225 | The first chip whose text contains the name is removed and nothing else; without one nothing changes |
| Webview.ChatPanel.RemoveFileNamed | resources/chatgpt-helper.js:216-225 | The corrected removal: the first chip made for exactly this name goes, so the names shown lose that one name; without one nothing changes |
| Webview.ChatPanel.Receive | resources/chatgpt-helper.js:34-51 | `setIcons` sets both icons; `chatgptResponse` appends the assistant entry and clears the busy state; `selectedFiles` rebuilds the chips; each leaves the rest of the panel as it was |
| Dotenv.StripQuotes | dist/extension.js:44 | Definition: a value starting and ending with the same quote loses that pair; properties in LiteralQuotedValue and DoubleQuotedValue |
| Dotenv.TrimmedValue | dist/extension.js:41-50 | The value is never longer than the trimmed text; properties in ParsedValueTrims, LiteralQuotedValue and DoubleQuotedValue |
| Dotenv.ParsedValue | dist/extension.js:35-50 | A missing value becomes the empty string, and a value never grows |
| Dotenv.ParsedValueTrims | dist/extension.js:35-38 | A value depends only on its text once trimmed |
| Dotenv.PaddedValue | dist/extension.js:35-38 | White space around a value text is dropped before it is unquoted |
| Dotenv.LiteralQuotedValue | dist/extension.js:41-50 | A value in single quotes or backticks loses its quotes and keeps its escapes literally |
| Dotenv.DoubleQuotedValue | dist/extension.js:44-50 | A double-quoted value loses its quotes and has `\n` and `\r` expanded, with no such escape left |
| Dotenv.Assign | dist/extension.js:53 | Definition: the key is set, except `__proto__`, which leaves the object as it was; properties in ParseLastLineWins |
| Dotenv.ParsedFrom | dist/extension.js:30-54 | Definition: each matched line assigned in order; properties in ParseLastLineWins |
| Dotenv.ParseMatches | dist/extension.js:21-57 | Definition: the lines assigned into an empty object; properties in Parse and ParseLastLineWins |
| Dotenv.Parse | dist/extension.js:21-57 | The loop assigns one value per matched line to an object created as `{}`, where an assignment to `__proto__` is lost |
| Dotenv.ParseLastLineWins | dist/extension.js:18-54 | The object's keys are exactly the matched keys other than `__proto__`, and each holds the value of the last line naming it |
| Dotenv.Populated | dist/extension.js:333-349 | Keys only in the parsed object are added; keys in both take the parsed value only with override; keys only in the target keep their value |
| Dotenv.PopulatedStep | dist/extension.js:334-348 | Handling one more key sets it unless it is already present without override |
| Dotenv.Populate | dist/extension.js:322-350 | An object argument merges as `Populated` says; a primitive raises `OBJECT_REQUIRED` and `null` raises a type error, both before anything changes |
| Dotenv.JoinPath | dist/extension.js:195-197 | Definition: one separator between two non-empty parts; used by ResolveHome, OptionPaths and VaultCandidate |
| Dotenv.ResolveHome | dist/extension.js:195-197 | Only a path starting with `~` changes, and it becomes the home directory joined with the rest |
| Dotenv.VaultFileName | dist/extension.js:178 | The result ends in `.vault`, starts with the path, and equals it exactly when the path already ends in `.vault`; otherwise it is the path with `.vault` appended |
| Dotenv.VaultFileNameIdempotent | dist/extension.js:182 | Naming a vault file twice changes nothing |
| Dotenv.OptionPaths | dist/extension.js:227-237 | A list gives each listed path with `~` resolved (none for an empty list); a non-empty single path gives that path resolved; no path or the empty string gives `.env` in the working directory |
| Dotenv.LastExisting | dist/extension.js:176-180 | The path found exists, and no listed path after it exists; none means no listed path exists |
| Dotenv.VaultCandidate | dist/extension.js:172-186 | Definition of the file `_vaultPath` checks for; properties in VaultPath, LastExisting and VaultFileName |
| Dotenv.VaultPath | dist/extension.js:171-193 | The result exists and is the candidate vault file of the options |
| Dotenv.DotenvKey | dist/extension.js:113-126 | A non-empty option key wins, then a non-empty `DOTENV_KEY` from the environment, else the empty string |
| Dotenv.LoadStep | dist/extension.js:244-254 | Definition: a readable file is parsed and merged, an unreadable one only recorded as the error; properties in LoadWithoutFailures and LastFailureReported |
| Dotenv.LoadAll | dist/extension.js:241-255 | Definition: the paths loaded in order; properties in LoadAllUntouched, FirstFileWins, LastFileWins, LoadWithoutFailures and LastFailureReported |
| Dotenv.LoadAllUntouched | dist/extension.js:243-255 | Files that do not define a key leave it as it was |
| Dotenv.FirstFileWins | dist/extension.js:243-255 | Without override, the first file defining a key decides its value |
| Dotenv.LastFileWins | dist/extension.js:243-255 | With override, the last file defining a key decides its value |
| Dotenv.LoadWithoutFailures | dist/extension.js:241-268 | When every file can be read, no error is recorded |
| Dotenv.LastFailureReported | dist/extension.js:249-254 | Loading goes on after a failure, and the error reported is the last failing path's |
| Dotenv.ConfigDotenvResult | dist/extension.js:227-268 | Definition: the option paths loaded into an empty object; properties in ConfigDotenv and the load lemmas |
| Dotenv.ConfigDotenv | dist/extension.js:214-269 | The result is the files merged in order with the last error, and the environment is that result merged in |
| Dotenv.Config | dist/extension.js:272-288 | Without a key, or without an existing vault file, it behaves as `configDotenv`; otherwise the vault file's own entries and then the decrypted values are merged, or the decryption error is raised |

## Left out

- The HTTPS request, `node-fetch`, the HTTP status handling and JSON decoding in `getChatGPTResponse` (src/extension.ts:227-261). These are network I/O; their result is a parameter.
- VS Code host APIs are foreign calls: the picker's result is a parameter, and the others are not modelled. This covers:
  - `activate`;
  - `registerWebviewViewProvider`;
  - `showOpenDialog`;
  - `asWebviewUri`;
  - the HTML template and its placeholder replacement in `getHtmlContent`.
- DOM and browser behaviour:
  - Prism loading and highlighting. The model assumes Prism has loaded: before it has, `Prism.highlightElement` throws, so a message with a fence is not appended, and for such a message `chatgptResponse` leaves the button animated and `handleAnalyzeAndChat` does not clear the input;
  - the copy button and the clipboard;
  - timers;
  - `autoGrow`;
  - scrolling;
  - the `fileInput` change handler and the keyboard shortcuts (Enter sends, Escape clears);
  - the red border `indicateEmptyInput` flashes.
- Console logging and dotenv's `debug` option.
- Concurrency: overlapping chat requests and their replies.
- Dotenv parts that are cryptography or foreign parsing:
  - `decrypt` (AES-256-GCM);
  - `_instructions` (URL parsing);
  - the key rotation in `_parseVault`.
- Dotenv's `options.processEnv` and `encoding`: the target is always the process environment, and files are given already decoded.
- Dotenv.Parse: the `LINE` regular expression and the line-break normalisation are not modelled; a file is the list of (key, value text) pairs they produce.
- Dotenv.ParsedValue: only values without line terminators are modelled. The quote-stripping regular expression has the multiline flag, so its `^` and `$` also match at a line feed, a carriage return, U+2028 or U+2029. The tokeniser keeps U+2028 and U+2029 inside a value, so for `K=x<U+2028>'y'` dotenv stores `x<U+2028>y` where `ParsedValue` keeps the quotes.
- Dotenv.Populate: entries merge as into a plain dictionary. A `__proto__` entry, which `parse` never produces, is not given the special handling JavaScript objects give that name.
- Dotenv.JoinPath: `path.join` and `path.resolve` are modelled without normalising `.`, `..` or repeated separators.
- Controller.Basename: POSIX paths only; Windows separators are not modelled.
- Controller.ClipContent: counts characters (code points), where `length` and `substring` count UTF-16 code units. A file of more than 500 characters outside the Basic Multilingual Plane can be cut by the extension and kept whole by the model. A cut through a surrogate pair, which a Dafny string cannot hold, is not modelled.
- Controller.LimitPrompt: counts characters (code points), where JavaScript's `length` counts UTF-16 code units, so prompts with characters outside the Basic Multilingual Plane are cut at a different place.
- Controller.ChatGPTViewProvider.HandleWebviewMessage: a `removeFile` index that is not an integer, or is missing, is not modelled.
- Webview.ChatPanel.AddFileToList: the name is put into the chip's markup without HTML escaping. Names containing markup, quotes or backslashes are not modelled: markup and quotes break the chip or its `onclick` handler, and a backslash is read as an escape in the handler's string literal, so a Windows path never matches its own chip.
- Webview.ChatPanel.AddFileToList: the chip carries the corrected icon `FileTypeIcon`, where the script calls `getFileTypeIcon` as written. The two differ only for the extensions `constructor` and `__proto__` (`Webview.IconLookupAgreesOtherwise`, `Webview.ReachableInheritedKeys`); the as-written lookup is `Webview.IconLookupAsWritten`.
- Webview.ChatPanel.RemoveFile: removing a chip does not notify the host. This is as in the script; the host's list keeps the file.
- Text.ToLowerAscii: lower-cases ASCII letters only. For the icon lookup this is exact: the only non-ASCII character that JavaScript lower-cases to an ASCII letter is the Kelvin sign, giving `k`, and `İ` gives `i` followed by a combining dot. No key a lower-cased extension can equal (`json`, `ts`, `html`, `default`, `constructor`, `__proto__`) contains `k` or the combining dot.

## Findings

| source | as written | input that shows it | evidently intended | confidence | as-written member | corrected member |
|---|---|---|---|---|---|---|
| resources/chatgpt-helper.js:229-236 | `iconUrls[extension] \|\| iconUrls.default` indexes a plain object literal, so an extension naming an `Object.prototype` member finds that member | a file named `notes.constructor`: the icon is the `Object` constructor function, not a URL | every extension other than `json`, `ts` and `html` gets the default icon | not executed | Webview.IconLookupAsWritten, shown by Webview.ConstructorExtensionHasNoIcon | Webview.FileTypeIcon, tied to the lookup by Webview.IconLookupAgreesOtherwise |
| resources/chatgpt-helper.js:219-221 | `removeFile` removes the first chip whose text contains the clicked name | chips for `/p/a.ts.bak` then `/p/a.ts`; clicking remove on `/p/a.ts` removes the chip of `/p/a.ts.bak` | the chip of the clicked file is removed | not executed | Webview.ChatPanel.RemoveFile, shown by Webview.ChipMatchesLongerName | Webview.ChatPanel.RemoveFileNamed, with Webview.RemovingOneChip |
