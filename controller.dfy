/** The extension host's controller, `ChatGPTViewProvider`: the list of
    selected files, the prompt built from them, the reply posted back to the
    webview, and the dispatch of the webview's messages. */
module Controller {
  import opened Wrappers
  import opened Text
  import opened Protocol

  /** Longest prompt sent to the completion API, in characters. */
  const PromptLimit: nat := 4096
  /** Longest part of one file copied into the prompt, in characters. */
  const ExcerptLimit: nat := 1000

  const PromptHead := "Вот содержимое выбранных файлов:\n"
  const QuestionHead := "\n\nТеперь ответь на следующий вопрос:\n"
  const CutMarker := "\n...\n[Содержимое файла сокращено]\n"
  const ReadErrorMarker := "[Ошибка при чтении файла]\n"
  const MissingKeyReply := "API ключ не найден. Проверьте ваш файл .env."
  const RequestFailedReply := "Ошибка при запросе к OpenAI API"

  const CompletionUrl := "https://api.openai.com/v1/chat/completions"
  const CompletionModel := "gpt-3.5-turbo"
  const SystemPrompt := "You are a helpful assistant."
  const MaxTokens: nat := 500

  // ---------------------------------------------------------------------
  // Reading the selected files

  /** What `fs.statSync` and `fs.readFileSync` find at a path. A path that
      is not in a `FileSystem` cannot be stat'ed at all. */
  datatype FileStatus =
    | RegularFile(content: string)
    | NotRegularFile
    | ReadFails

  type FileSystem = map<string, FileStatus>

  /** `path.basename` of a POSIX path: the last segment, ignoring trailing
      separators. */
  function Basename(path: string): (name: string)
    ensures !Contains(name, "/")
    ensures EndsWith(StripTrailing(path, '/'), name)
    ensures Contains(StripTrailing(path, '/'), "/") ==> EndsWith(StripTrailing(path, '/'), "/" + name)
    ensures !Contains(path, "/") ==> name == path
    ensures !Contains(StripTrailing(path, '/'), "/") ==> name == StripTrailing(path, '/')
  {
    var trimmed := StripTrailing(path, '/');
    LastPieceOfSplit(trimmed, "/");
    NoSeparatorToStrip(path);
    Last(Split(trimmed, "/"))
  }

  lemma NoSeparatorToStrip(path: string)
    ensures !Contains(path, "/") ==> StripTrailing(path, '/') == path
  {
    if path != [] && path[|path| - 1] == '/' {
      assert OccursAt(path, "/", |path| - 1);
    }
  }

  /** The line that introduces a file in the prompt. */
  function FileHeader(path: string): string {
    "\n--- [Файл] " + Basename(path) + " ---\n"
  }

  /** The part of a file's text that goes into the prompt: all of it when it
      fits, otherwise its first `ExcerptLimit` characters and a marker. */
  function ClipContent(content: string): (shown: string)
    ensures |content| <= ExcerptLimit ==> shown == content
    ensures |content| > ExcerptLimit ==>
      && |shown| == ExcerptLimit + |CutMarker|
      && shown[..ExcerptLimit] == content[..ExcerptLimit]
      && EndsWith(shown, CutMarker)
  {
    if |content| > ExcerptLimit then content[..ExcerptLimit] + CutMarker else content
  }

  /** One file's contribution to the prompt (`analyzeSelectedFiles`'s
      callback). */
  function Excerpt(fs: FileSystem, path: string): string {
    if path !in fs then ReadErrorMarker
    else match fs[path]
      case RegularFile(content) => FileHeader(path) + ClipContent(content)
      case NotRegularFile => ""
      case ReadFails => ReadErrorMarker
  }

  function Excerpts(fs: FileSystem, files: seq<string>): (es: seq<string>)
    ensures |es| == |files|
  {
    seq(|files|, i requires 0 <= i < |files| => Excerpt(fs, files[i]))
  }

  /** `analyzeSelectedFiles`: the excerpts in list order, joined by newlines. */
  function AnalyzeSelectedFiles(fs: FileSystem, files: seq<string>): string {
    Join(Excerpts(fs, files), "\n")
  }

  /** A readable file's excerpt is its header then its text, clipped with
      a marker when it is longer than `ExcerptLimit`. */
  lemma ExcerptOfReadable(fs: FileSystem, path: string)
    requires path in fs && fs[path].RegularFile?
    ensures |fs[path].content| <= ExcerptLimit ==>
      Excerpt(fs, path) == FileHeader(path) + fs[path].content
    ensures |fs[path].content| > ExcerptLimit ==>
      Excerpt(fs, path) == FileHeader(path) + fs[path].content[..ExcerptLimit] + CutMarker
  {
    var header, c := FileHeader(path), fs[path].content;
    assert Excerpt(fs, path) == header + ClipContent(c);
    if |c| > ExcerptLimit {
      ConcatEnds(header, c[..ExcerptLimit], CutMarker);
    }
  }

  /** A path that cannot be stat'ed or read gives only the error marker; one
      that is not a regular file gives nothing. */
  lemma ExcerptOfUnreadable(fs: FileSystem, path: string)
    ensures path !in fs || fs[path].ReadFails? ==> Excerpt(fs, path) == ReadErrorMarker
    ensures path in fs && fs[path].NotRegularFile? ==> Excerpt(fs, path) == ""
  {
  }

  /** The files are handled one by one: the text for a list is the text for
      its first part, a newline, and the text for the rest, so a failure on
      one file changes nothing for the others. */
  lemma AnalyzeAppend(fs: FileSystem, a: seq<string>, b: seq<string>)
    requires |a| > 0 && |b| > 0
    ensures AnalyzeSelectedFiles(fs, a + b)
         == AnalyzeSelectedFiles(fs, a) + "\n" + AnalyzeSelectedFiles(fs, b)
  {
    assert Excerpts(fs, a + b) == Excerpts(fs, a) + Excerpts(fs, b);
    JoinAppend(Excerpts(fs, a), Excerpts(fs, b), "\n");
  }

  /** Only the selected paths are looked at: two file systems that agree on
      them give the same text. */
  lemma AnalyzeReadsOnlySelected(fs1: FileSystem, fs2: FileSystem, files: seq<string>)
    requires forall p :: p in files ==> (p in fs1 <==> p in fs2)
    requires forall p :: p in files && p in fs1 ==> fs1[p] == fs2[p]
    ensures AnalyzeSelectedFiles(fs1, files) == AnalyzeSelectedFiles(fs2, files)
  {
    assert Excerpts(fs1, files) == Excerpts(fs2, files);
  }

  // ---------------------------------------------------------------------
  // Building the prompt

  /** The prompt before the length limit: the files, then the question. */
  function AssemblePrompt(content: string, question: string): string {
    PromptHead + content + QuestionHead + question
  }

  /** The length limit applied to the whole prompt. */
  function LimitPrompt(prompt: string): (sent: string)
    ensures sent <= prompt && |sent| <= PromptLimit
    ensures |prompt| <= PromptLimit ==> sent == prompt
    ensures |prompt| > PromptLimit ==> |sent| == PromptLimit
  {
    if |prompt| > PromptLimit then prompt[..PromptLimit] else prompt
  }

  /** The prompt `processChatRequest` sends for a question. */
  function PromptFor(fs: FileSystem, files: seq<string>, question: string): (sent: string)
    ensures sent <= AssemblePrompt(AnalyzeSelectedFiles(fs, files), question)
    ensures |sent| <= PromptLimit
  {
    LimitPrompt(AssemblePrompt(AnalyzeSelectedFiles(fs, files), question))
  }

  /** When the file excerpts alone fill the limit, nothing of the question
      is sent: the prompt is the same whatever was asked. */
  lemma QuestionCutOff(fs: FileSystem, files: seq<string>, q1: string, q2: string)
    requires |PromptHead + AnalyzeSelectedFiles(fs, files) + QuestionHead| >= PromptLimit
    ensures PromptFor(fs, files, q1) == PromptFor(fs, files, q2)
  {
    var fixed := PromptHead + AnalyzeSelectedFiles(fs, files) + QuestionHead;
    assert AssemblePrompt(AnalyzeSelectedFiles(fs, files), q1) == fixed + q1;
    assert AssemblePrompt(AnalyzeSelectedFiles(fs, files), q2) == fixed + q2;
    assert (fixed + q1)[..PromptLimit] == fixed[..PromptLimit];
    assert (fixed + q2)[..PromptLimit] == fixed[..PromptLimit];
  }

  /** Two readable files, one short and one long: the prompt holds both
      headers, the first file whole, the second cut at `ExcerptLimit` with the
      marker, and then the question. */
  lemma ShortAndLongFile(fs: FileSystem, p1: string, p2: string, question: string)
    requires p1 in fs && fs[p1].RegularFile? && |fs[p1].content| <= ExcerptLimit
    requires p2 in fs && fs[p2].RegularFile? && |fs[p2].content| > ExcerptLimit
    ensures AssemblePrompt(AnalyzeSelectedFiles(fs, [p1, p2]), question)
         == PromptHead + FileHeader(p1) + fs[p1].content + "\n"
            + FileHeader(p2) + fs[p2].content[..ExcerptLimit] + CutMarker
            + QuestionHead + question
  {
    ExcerptOfReadable(fs, p1);
    ExcerptOfReadable(fs, p2);
    var es := Excerpts(fs, [p1, p2]);
    assert es[0] == Excerpt(fs, p1) && es[1] == Excerpt(fs, p2);
    assert es[1..] == [es[1]];
    assert Join(es[1..], "\n") == es[1];
    assert Join(es, "\n") == es[0] + "\n" + Join(es[1..], "\n");
    Regroup(PromptHead, FileHeader(p1), fs[p1].content, FileHeader(p2),
            fs[p2].content[..ExcerptLimit], CutMarker, QuestionHead, question);
  }

  lemma Regroup(head: string, h1: string, c1: string, h2: string, c2: string,
                marker: string, qh: string, q: string)
    ensures head + ((h1 + c1) + "\n" + (h2 + c2 + marker)) + qh + q
         == head + h1 + c1 + "\n" + h2 + c2 + marker + qh + q
  {
  }

  // ---------------------------------------------------------------------
  // Asking the completion API

  datatype ChatTurn = ChatTurn(role: string, content: string)

  /** The POST request `getChatGPTResponse` would send. */
  datatype CompletionRequest = CompletionRequest(
    url: string,
    authorization: string,
    model: string,
    messages: seq<ChatTurn>,
    maxTokens: nat)

  /** What `getChatGPTResponse` does with a prompt: answer at once when the
      key is missing or empty, otherwise send one request. */
  datatype ResponsePlan =
    | ReplyAtOnce(text: string)
    | Send(request: CompletionRequest)

  function PlanResponse(apiKey: Option<string>, prompt: string): (plan: ResponsePlan)
    ensures plan.ReplyAtOnce? <==> apiKey.GetOr("") == ""
    ensures plan.ReplyAtOnce? ==> plan.text == MissingKeyReply
    ensures plan.Send? ==>
      && plan.request.url == CompletionUrl
      && plan.request.authorization == "Bearer " + apiKey.value
      && plan.request.model == CompletionModel
      && plan.request.maxTokens == MaxTokens
      && |plan.request.messages| == 2
      && plan.request.messages[0] == ChatTurn("system", SystemPrompt)
      && plan.request.messages[1] == ChatTurn("user", prompt)
  {
    match apiKey
    case None => ReplyAtOnce(MissingKeyReply)
    case Some(key) =>
      if key == "" then ReplyAtOnce(MissingKeyReply)
      else Send(CompletionRequest(CompletionUrl, "Bearer " + key, CompletionModel,
                                  [ChatTurn("system", SystemPrompt), ChatTurn("user", prompt)],
                                  MaxTokens))
  }

  /** How the network part of `getChatGPTResponse` ended: with a text (its
      answer, or its own error strings for HTTP and fetch failures), or by
      throwing before its `try` (loading the HTTP client). */
  datatype NetworkOutcome = Returned(text: string) | Threw

  /** The text posted back to the webview for a request. */
  function ChatReply(plan: ResponsePlan, network: NetworkOutcome): string {
    match plan
    case ReplyAtOnce(text) => text
    case Send(_) =>
      match network
      case Returned(text) => text
      case Threw => RequestFailedReply
  }

  /** Without an API key the reply is the fixed message, whatever the
      network would have done. */
  lemma MissingKeyNeedsNoNetwork(apiKey: Option<string>, prompt: string, network: NetworkOutcome)
    requires apiKey.GetOr("") == ""
    ensures ChatReply(PlanResponse(apiKey, prompt), network) == MissingKeyReply
  {
  }

  // ---------------------------------------------------------------------
  // The controller object

  /** What the native file picker gave: paths, nothing (the dialog was
      dismissed), or a failure. */
  datatype PickerOutcome = Picked(paths: seq<string>) | Dismissed | PickerFailed

  /** Everything outside the controller that a message may consult. */
  datatype HostInputs = HostInputs(
    fs: FileSystem,
    apiKey: Option<string>,
    network: NetworkOutcome,
    picker: PickerOutcome)

  class ChatGPTViewProvider {
    /** The selected files, as file-system paths, in the order picked. */
    var selectedFiles: seq<string>
    /** Whether the webview exists yet; messages posted before are lost. */
    var viewResolved: bool
    /** The messages posted to the webview, oldest first. */
    var posted: seq<ViewMessage>

    constructor ()
      ensures selectedFiles == [] && !viewResolved && posted == []
    {
      selectedFiles := [];
      viewResolved := false;
      posted := [];
    }

    /** `resolveWebviewView`: from now on messages reach the view. */
    method ResolveWebviewView()
      modifies this`viewResolved
      ensures viewResolved
    {
      viewResolved := true;
    }

    /** `this._view?.webview.postMessage(m)`. */
    method PostMessage(m: ViewMessage)
      modifies this`posted
      ensures posted == old(posted) + (if viewResolved then [m] else [])
    {
      if viewResolved {
        posted := posted + [m];
      }
    }

    /** `removeFileHandler`: drops the entry at `index` when there is one and
        reports the new list; any other index changes nothing. */
    method RemoveFileHandler(index: int)
      modifies this`selectedFiles, this`posted
      ensures 0 <= index < |old(selectedFiles)| ==>
        && selectedFiles == old(selectedFiles)[..index] + old(selectedFiles)[index + 1..]
        && posted == old(posted) + (if viewResolved then [SelectedFiles(selectedFiles)] else [])
      ensures !(0 <= index < |old(selectedFiles)|) ==>
        selectedFiles == old(selectedFiles) && posted == old(posted)
    {
      if 0 <= index < |selectedFiles| {
        selectedFiles := selectedFiles[..index] + selectedFiles[index + 1..];
        PostMessage(SelectedFiles(selectedFiles));
      }
    }

    /** `selectFilesHandler`: the picked paths replace the list (a dismissed
        dialog empties it) and are reported; a failing picker changes
        nothing. */
    method SelectFilesHandler(picker: PickerOutcome)
      modifies this`selectedFiles, this`posted
      ensures picker.PickerFailed? ==>
        selectedFiles == old(selectedFiles) && posted == old(posted)
      ensures !picker.PickerFailed? ==>
        && selectedFiles == (if picker.Picked? then picker.paths else [])
        && posted == old(posted) + (if viewResolved then [SelectedFiles(selectedFiles)] else [])
    {
      match picker
      case PickerFailed =>
      case Dismissed =>
        selectedFiles := [];
        PostMessage(SelectedFiles(selectedFiles));
      case Picked(paths) =>
        selectedFiles := paths;
        PostMessage(SelectedFiles(selectedFiles));
    }

    /** `processChatRequest`: a missing or empty question is ignored;
        otherwise the reply to the limited prompt is posted. */
    method ProcessChatRequest(text: Option<string>, fs: FileSystem, apiKey: Option<string>,
                              network: NetworkOutcome)
      modifies this`posted
      ensures text.GetOr("") == "" ==> posted == old(posted)
      ensures text.GetOr("") != "" ==>
        posted == old(posted) +
          (if viewResolved
           then [ChatgptResponse(ChatReply(PlanResponse(apiKey, PromptFor(fs, selectedFiles, text.value)),
                                           network))]
           else [])
    {
      if text.GetOr("") == "" {
        return;
      }
      var content := AnalyzeSelectedFiles(fs, selectedFiles);
      var prompt := AssemblePrompt(content, text.value);
      if |prompt| > PromptLimit {
        prompt := prompt[..PromptLimit];
      }
      var response := ChatReply(PlanResponse(apiKey, prompt), network);
      PostMessage(ChatgptResponse(response));
    }

    /** `handleWebviewMessage`: one handler per known tag; an unknown tag
        changes nothing. */
    method HandleWebviewMessage(message: HostMessage, inputs: HostInputs)
      modifies this`selectedFiles, this`posted
      ensures message.UnknownMessage? ==>
        selectedFiles == old(selectedFiles) && posted == old(posted)
      ensures message.AnalyzeAndChat? ==>
        && selectedFiles == old(selectedFiles)
        && (message.text.GetOr("") == "" ==> posted == old(posted))
        && (message.text.GetOr("") != "" ==>
              posted == old(posted) +
                (if viewResolved
                 then [ChatgptResponse(ChatReply(PlanResponse(inputs.apiKey,
                                                              PromptFor(inputs.fs, selectedFiles, message.text.value)),
                                                 inputs.network))]
                 else []))
      ensures message.SelectFiles? && inputs.picker.PickerFailed? ==>
        selectedFiles == old(selectedFiles) && posted == old(posted)
      ensures message.SelectFiles? && !inputs.picker.PickerFailed? ==>
        && selectedFiles == (if inputs.picker.Picked? then inputs.picker.paths else [])
        && posted == old(posted) + (if viewResolved then [SelectedFiles(selectedFiles)] else [])
      ensures message.RemoveFile? && 0 <= message.index < |old(selectedFiles)| ==>
        && selectedFiles == old(selectedFiles)[..message.index] + old(selectedFiles)[message.index + 1..]
        && posted == old(posted) + (if viewResolved then [SelectedFiles(selectedFiles)] else [])
      ensures message.RemoveFile? && !(0 <= message.index < |old(selectedFiles)|) ==>
        selectedFiles == old(selectedFiles) && posted == old(posted)
    {
      match message
      case AnalyzeAndChat(text) =>
        ProcessChatRequest(text, inputs.fs, inputs.apiKey, inputs.network);
      case SelectFiles =>
        SelectFilesHandler(inputs.picker);
      case RemoveFile(index) =>
        RemoveFileHandler(index);
      case UnknownMessage(_) =>
    }
  }
}
