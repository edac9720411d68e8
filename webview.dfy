/** The webview script: how a chat message is cut into text and code, the
    language guessed for a code block, the icon chosen for a file, and the
    panel's own state (the chat log, the file chips, the input box and the
    messages posted to the host). The DOM is abstracted to sequences. */
module Webview {
  import opened Wrappers
  import opened Text
  import opened Protocol

  // ---------------------------------------------------------------------
  // Guessing the language of a code block

  datatype Language = Php | JavaScript | Java | Cpp | Python | TypeScript

  predicate HasJavaScriptKeyword(code: string) {
    Contains(code, "import") || Contains(code, "export") || Contains(code, "const") || Contains(code, "let")
  }

  /** `detectCodeLanguage`: the first rule that matches, in a fixed order. */
  function DetectCodeLanguage(code: string): Language {
    if Contains(code, "<?php") then Php
    else if HasJavaScriptKeyword(code) then JavaScript
    else if Contains(code, "class") && Contains(code, "public static void main") then Java
    else if Contains(code, "#include") || Contains(code, "int main") then Cpp
    else if Contains(code, "def ") || Contains(code, "import ") || Contains(code, "print(") then Python
    else if Contains(code, "type ") || Contains(code, "interface ") || Contains(code, "export ") then TypeScript
    else JavaScript
  }

  /** The rule order: `<?php` wins over everything; otherwise any of the
      four JavaScript keywords wins over the later rules; Java needs both of
      its markers. */
  lemma DetectionOrder(code: string)
    ensures Contains(code, "<?php") ==> DetectCodeLanguage(code) == Php
    ensures !Contains(code, "<?php") && HasJavaScriptKeyword(code) ==> DetectCodeLanguage(code) == JavaScript
    ensures DetectCodeLanguage(code) == Java <==>
      && !Contains(code, "<?php") && !HasJavaScriptKeyword(code)
      && Contains(code, "class") && Contains(code, "public static void main")
  {
  }

  /** The `"import "` test of the Python rule and the `"export "` test of the
      TypeScript rule can never decide: code containing either is already
      JavaScript (or PHP). So Python needs `def ` or `print(`, and TypeScript
      needs `type ` or `interface `. */
  lemma ShadowedTests(code: string)
    ensures Contains(code, "import ") || Contains(code, "export ") ==>
      DetectCodeLanguage(code) == Php || DetectCodeLanguage(code) == JavaScript
    ensures DetectCodeLanguage(code) == Python ==> Contains(code, "def ") || Contains(code, "print(")
    ensures DetectCodeLanguage(code) == TypeScript ==> Contains(code, "type ") || Contains(code, "interface ")
  {
    if Contains(code, "import ") {
      ContainsPrefixOf(code, "import ", 6);
      assert "import "[..6] == "import";
    }
    if Contains(code, "export ") {
      ContainsPrefixOf(code, "export ", 6);
      assert "export "[..6] == "export";
    }
  }

  // ---------------------------------------------------------------------
  // File icons

  const JsonIconUrl := "https://cdn.jsdelivr.net/gh/PKief/vscode-material-icon-theme/icons/json.svg"
  const TsIconUrl := "https://cdn.jsdelivr.net/gh/PKief/vscode-material-icon-theme/icons/typescript.svg"
  const HtmlIconUrl := "https://cdn.jsdelivr.net/gh/PKief/vscode-material-icon-theme/icons/html.svg"
  const DefaultIconUrl := "https://cdn.jsdelivr.net/gh/PKief/vscode-material-icon-theme/icons/file.svg"

  /** `fileName.split(".").pop()`: the text after the last dot, or the whole
      name when it has no dot. */
  function FileExtension(fileName: string): (ext: string)
    ensures !Contains(ext, ".") && EndsWith(fileName, ext)
    ensures Contains(fileName, ".") ==> EndsWith(fileName, "." + ext)
    ensures !Contains(fileName, ".") ==> ext == fileName
  {
    LastPieceOfSplit(fileName, ".");
    Last(Split(fileName, "."))
  }

  /** The icon for a file: by its lower-cased extension, with a default for
      every extension other than `json`, `ts` and `html`. */
  function FileTypeIcon(fileName: string): (url: string)
    ensures url == JsonIconUrl <==> ToLowerAscii(FileExtension(fileName)) == "json"
    ensures url == TsIconUrl <==> ToLowerAscii(FileExtension(fileName)) == "ts"
    ensures url == HtmlIconUrl <==> ToLowerAscii(FileExtension(fileName)) == "html"
    ensures url == DefaultIconUrl <==> ToLowerAscii(FileExtension(fileName)) !in {"json", "ts", "html"}
  {
    var ext := ToLowerAscii(FileExtension(fileName));
    if ext == "json" then JsonIconUrl
    else if ext == "ts" then TsIconUrl
    else if ext == "html" then HtmlIconUrl
    else DefaultIconUrl
  }

  /** The property names every object literal inherits from
      `Object.prototype`; indexing `iconUrls` with one of them finds the
      inherited member instead of missing. All but `constructor` and
      `__proto__` hold a capital letter, so a lower-cased extension never
      equals them (`ReachableInheritedKeys`). */
  const InheritedKeys: set<string> := {
    "constructor", "__proto__", "hasOwnProperty", "isPrototypeOf",
    "propertyIsEnumerable", "toLocaleString", "toString", "valueOf",
    "__defineGetter__", "__defineSetter__", "__lookupGetter__", "__lookupSetter__"
  }

  datatype IconLookup = IconUrl(url: string) | InheritedMember(key: string)

  /** `getFileTypeIcon` as written: `iconUrls[extension] || iconUrls.default`
      on an object literal, where an inherited member (always truthy) is
      returned as the icon. */
  function IconLookupAsWritten(fileName: string): (lookup: IconLookup)
    ensures lookup.InheritedMember? <==> ToLowerAscii(FileExtension(fileName)) in InheritedKeys
  {
    var ext := ToLowerAscii(FileExtension(fileName));
    if ext == "json" then IconUrl(JsonIconUrl)
    else if ext == "ts" then IconUrl(TsIconUrl)
    else if ext == "html" then IconUrl(HtmlIconUrl)
    else if ext == "default" then IconUrl(DefaultIconUrl)
    else if ext in InheritedKeys then InheritedMember(ext)
    else IconUrl(DefaultIconUrl)
  }

  /** A file named `notes.constructor` gets the `Object` constructor
      function as its icon rather than a URL. */
  lemma ConstructorExtensionHasNoIcon(base: string)
    ensures IconLookupAsWritten(base + ".constructor") == InheritedMember("constructor")
  {
    ConstructorExtension(base);
    InheritedKeyLookup(base + ".constructor");
  }

  lemma ConstructorExtension(base: string)
    ensures ToLowerAscii(FileExtension(base + ".constructor")) == "constructor"
  {
    ExtensionAfterDot(base);
    LowerCaseUnchanged("constructor");
  }

  lemma ExtensionAfterDot(base: string)
    ensures FileExtension(base + ".constructor") == "constructor"
  {
    assert base + ".constructor" == base + "." + "constructor";
    ExtensionAfterLastDot(base, "constructor");
  }

  /** Every extension that names an inherited member reaches that member. */
  lemma InheritedKeyLookup(fileName: string)
    requires ToLowerAscii(FileExtension(fileName)) in InheritedKeys
    ensures IconLookupAsWritten(fileName) == InheritedMember(ToLowerAscii(FileExtension(fileName)))
  {
  }

  /** The extension of `base.tail`, when `tail` has no dot, is `tail`. */
  lemma ExtensionAfterLastDot(base: string, tail: string)
    requires forall i :: 0 <= i < |tail| ==> tail[i] != '.'
    ensures FileExtension(base + "." + tail) == tail
  {
    var name := base + "." + tail;
    assert OccursAt(name, ".", |base|);
    var ext := FileExtension(name);
    var m := |name| - |ext| - 1;
    assert name[m] == '.' by {
      assert name[m..] == "." + ext;
    }
    if m > |base| {
      assert false;
    } else if m < |base| {
      assert ext == name[m + 1..];
      assert ext[|base| - m - 1] == '.';
      ContainsAt(ext, ".", |base| - m - 1);
      assert false;
    }
    assert ext == name[|base| + 1..];
  }

  lemma LowerCaseUnchanged(s: string)
    requires forall i :: 0 <= i < |s| ==> !('A' <= s[i] <= 'Z')
    ensures ToLowerAscii(s) == s
  {
  }

  /** Lower-casing leaves no capital letter. */
  lemma NoCapitalAfterLowering(s: string)
    ensures forall i :: 0 <= i < |s| ==> !('A' <= ToLowerAscii(s)[i] <= 'Z')
  {
  }

  /** Of the inherited names, a lower-cased extension can only reach
      `constructor` and `__proto__`. */
  lemma ReachableInheritedKeys(fileName: string)
    ensures ToLowerAscii(FileExtension(fileName)) in InheritedKeys <==>
      ToLowerAscii(FileExtension(fileName)) in {"constructor", "__proto__"}
  {
    var ext := ToLowerAscii(FileExtension(fileName));
    NoCapitalAfterLowering(FileExtension(fileName));
    assert "hasOwnProperty"[3] == 'O' && "isPrototypeOf"[2] == 'P';
    assert "propertyIsEnumerable"[8] == 'I' && "toLocaleString"[2] == 'L';
    assert "toString"[2] == 'S' && "valueOf"[5] == 'O';
    assert "__defineGetter__"[8] == 'G' && "__defineSetter__"[8] == 'S';
    assert "__lookupGetter__"[8] == 'G' && "__lookupSetter__"[8] == 'S';
  }

  /** Wherever the lookup as written finds no inherited member, it gives the
      same icon as `FileTypeIcon`. */
  lemma IconLookupAgreesOtherwise(fileName: string)
    requires ToLowerAscii(FileExtension(fileName)) !in InheritedKeys
    ensures IconLookupAsWritten(fileName) == IconUrl(FileTypeIcon(fileName))
  {
  }

  // ---------------------------------------------------------------------
  // Rendering a chat message

  datatype Sender = User | Assistant

  datatype Segment = TextSpan(text: string) | CodeBlock(language: Language, code: string)

  /** A message is shown either as one text or as a row of segments. */
  datatype Body = PlainText(text: string) | Segmented(segments: seq<Segment>)

  datatype ChatEntry = ChatEntry(sender: Sender, body: Body)

  const Fence := "```"

  /** Piece `i` of a split message: even pieces are text, odd ones code. */
  function SegmentAt(parts: seq<string>, i: nat): Segment
    requires i < |parts|
  {
    if i % 2 == 0 then TextSpan(parts[i])
    else CodeBlock(DetectCodeLanguage(parts[i]), parts[i])
  }

  function Segments(parts: seq<string>): (segments: seq<Segment>)
    ensures |segments| == |parts|
  {
    seq(|parts|, i requires 0 <= i < |parts| => SegmentAt(parts, i))
  }

  /** How `addMessageToChat` shows a message. */
  function RenderedBody(message: string): Body {
    if Contains(message, Fence) then Segmented(Segments(Split(message, Fence)))
    else PlainText(message)
  }

  /** The loop of `addMessageToChat` over the pieces of a message. */
  method RenderParts(parts: seq<string>) returns (segments: seq<Segment>)
    ensures segments == Segments(parts)
  {
    segments := [];
    for i := 0 to |parts|
      invariant |segments| == i
      invariant forall j :: 0 <= j < i ==> segments[j] == SegmentAt(parts, j)
    {
      if i % 2 == 0 {
        segments := segments + [TextSpan(parts[i])];
      } else {
        var language := DetectCodeLanguage(parts[i]);
        segments := segments + [CodeBlock(language, parts[i])];
      }
    }
  }

  /** The element `addMessageToChat` builds for a message. */
  method RenderMessage(sender: Sender, message: string) returns (entry: ChatEntry)
    ensures entry == ChatEntry(sender, RenderedBody(message))
  {
    if Contains(message, Fence) {
      var parts := Split(message, Fence);
      var segments := RenderParts(parts);
      entry := ChatEntry(sender, Segmented(segments));
    } else {
      entry := ChatEntry(sender, PlainText(message));
    }
  }

  function CountCodeBlocks(segments: seq<Segment>): nat {
    if segments == [] then 0
    else CountCodeBlocks(segments[..|segments| - 1]) + (if Last(segments).CodeBlock? then 1 else 0)
  }

  function SegmentText(segment: Segment): string {
    match segment
    case TextSpan(text) => text
    case CodeBlock(_, code) => code
  }

  function SegmentTexts(segments: seq<Segment>): (texts: seq<string>)
    ensures |texts| == |segments|
  {
    seq(|segments|, i requires 0 <= i < |segments| => SegmentText(segments[i]))
  }

  lemma {:induction false} CodeBlocksOfParts(parts: seq<string>)
    ensures CountCodeBlocks(Segments(parts)) == |parts| / 2
    decreases |parts|
  {
    if parts != [] {
      var n := |parts|;
      CodeBlocksOfParts(parts[..n - 1]);
      assert Segments(parts)[..n - 1] == Segments(parts[..n - 1]);
    }
  }

  /** A message with N fences (N > 0) shows N + 1 segments, of which
      floor((N + 1) / 2) are code blocks, so an unclosed last fence still
      opens a code block; a message without a fence is one plain text. */
  lemma FenceCounts(message: string)
    ensures !Contains(message, Fence) ==> RenderedBody(message) == PlainText(message)
    ensures Contains(message, Fence) ==>
      && |RenderedBody(message).segments| == Occurrences(message, Fence) + 1
      && CountCodeBlocks(RenderedBody(message).segments) == (Occurrences(message, Fence) + 1) / 2
  {
    SplitLength(message, Fence);
    CodeBlocksOfParts(Split(message, Fence));
  }

  /** Rendering keeps all of the message: the segments' texts, joined with
      the fence, give the message back, and none of them holds a fence. */
  lemma RenderingKeepsText(message: string)
    requires Contains(message, Fence)
    ensures Join(SegmentTexts(RenderedBody(message).segments), Fence) == message
    ensures forall s :: s in RenderedBody(message).segments ==> !Contains(SegmentText(s), Fence)
  {
    var parts := Split(message, Fence);
    assert SegmentTexts(Segments(parts)) == parts;
    SplitJoin(message, Fence);
    SplitPiecesAreFree(message, Fence);
  }

  // ---------------------------------------------------------------------
  // File chips

  datatype FileChip = FileChip(name: string, icon: string)

  /** The chip `addFileToList` builds for a file name. */
  function ChipFor(name: string): FileChip {
    FileChip(name, FileTypeIcon(name))
  }

  /** The chip's `textContent`: the white space of its markup around the name
      (the images contribute no text). */
  function ChipText(chip: FileChip): string {
    "\n    \n      \n      " + chip.name + "\n    \n    \n      \n    \n  "
  }

  predicate ChipMatches(chip: FileChip, fileName: string) {
    Contains(ChipText(chip), fileName)
  }

  /** `Array.from(fileList.children).find(...)`: the index of the first chip
      that satisfies the test. */
  method FindFirst(chips: seq<FileChip>, test: FileChip -> bool) returns (found: Option<nat>)
    ensures found.Some? ==>
      && found.value < |chips|
      && test(chips[found.value])
      && forall j :: 0 <= j < found.value ==> !test(chips[j])
    ensures found.None? ==> forall j :: 0 <= j < |chips| ==> !test(chips[j])
  {
    var i := 0;
    while i < |chips|
      invariant 0 <= i <= |chips|
      invariant forall j :: 0 <= j < i ==> !test(chips[j])
    {
      if test(chips[i]) {
        return Some(i);
      }
      i := i + 1;
    }
    return None;
  }

  /** A name is found in the chip made for it. */
  lemma ChipMatchesOwnName(name: string)
    ensures ChipMatches(ChipFor(name), name)
  {
    ChipMatchesLongerName(name, "");
    assert name + "" == name;
  }

  /** A name is also found in the chip of every file whose name extends it:
      with the chips of `a.ts.bak` and `a.ts` in that order, removing `a.ts`
      finds the chip of `a.ts.bak` first. */
  lemma ChipMatchesLongerName(name: string, suffix: string)
    ensures ChipMatches(ChipFor(name + suffix), name)
    ensures suffix != "" ==> ChipFor(name + suffix).name != name
  {
    var before := "\n    \n      \n      ";
    var text := ChipText(ChipFor(name + suffix));
    assert text == before + (name + suffix) + "\n    \n    \n      \n    \n  ";
    assert text[|before|..|before| + |name|] == name;
    ContainsAt(text, name, |before|);
    if suffix != "" {
      assert |name + suffix| > |name|;
    }
  }

  /** The names on a list of chips, in order. */
  function ChipNameList(chips: seq<FileChip>): (names: seq<string>)
    ensures |names| == |chips|
  {
    seq(|chips|, i requires 0 <= i < |chips| => chips[i].name)
  }

  /** The names on a list of chips, with their multiplicities. */
  function ChipNames(chips: seq<FileChip>): multiset<string> {
    multiset(ChipNameList(chips))
  }

  /** Removing the chip at `k` takes exactly one copy of its name off the
      list and leaves every other name as it was. */
  lemma RemovingOneChip(chips: seq<FileChip>, k: nat)
    requires k < |chips|
    ensures ChipNames(chips[..k] + chips[k + 1..]) == ChipNames(chips) - multiset{chips[k].name}
  {
    var names := ChipNameList(chips);
    assert ChipNameList(chips[..k] + chips[k + 1..]) == names[..k] + names[k + 1..];
    assert names == names[..k] + [names[k]] + names[k + 1..];
  }

  /** A name is on the list exactly when some chip carries it. */
  lemma NamesOfChips(chips: seq<FileChip>, name: string)
    ensures name in ChipNames(chips) <==> exists j :: 0 <= j < |chips| && chips[j].name == name
  {
    if name in ChipNames(chips) {
      var j :| 0 <= j < |chips| && ChipNameList(chips)[j] == name;
    }
    if exists j :: 0 <= j < |chips| && chips[j].name == name {
      var j :| 0 <= j < |chips| && chips[j].name == name;
      assert ChipNameList(chips)[j] == name;
    }
  }

  // ---------------------------------------------------------------------
  // The panel

  class ChatPanel {
    /** The chat messages shown, oldest first; never changed, only added to. */
    var chatLog: seq<ChatEntry>
    /** The file chips, in display order. */
    var fileChips: seq<FileChip>
    /** The messages posted to the host, oldest first. */
    var outbox: seq<HostMessage>
    /** The text in the input box. */
    var userInput: string
    /** The loading indicator and the button animation, shown together. */
    var busy: bool
    var attachIcon: string
    var playIcon: string
    /** Whether `acquireVsCodeApi` was available, so messages reach the host. */
    const hostAvailable: bool

    constructor (hostAvailable: bool)
      ensures this.hostAvailable == hostAvailable
      ensures chatLog == [] && fileChips == [] && outbox == [] && userInput == "" && !busy
    {
      this.hostAvailable := hostAvailable;
      chatLog := [];
      fileChips := [];
      outbox := [];
      userInput := "";
      busy := false;
      attachIcon := "";
      playIcon := "";
    }

    /** `addMessageToChat`: appends one rendered entry to the log. */
    method AddMessageToChat(sender: Sender, message: string)
      modifies this`chatLog
      ensures chatLog == old(chatLog) + [ChatEntry(sender, RenderedBody(message))]
    {
      var entry := RenderMessage(sender, message);
      chatLog := chatLog + [entry];
    }

    /** `handleAnalyzeAndChat`: input that is empty after trimming changes
        nothing; otherwise the trimmed question goes to the host, is echoed
        into the log as the user's entry, and the input box is cleared. */
    method HandleAnalyzeAndChat()
      modifies this`chatLog, this`outbox, this`userInput, this`busy
      ensures Trim(old(userInput)) == "" ==>
        && chatLog == old(chatLog) && outbox == old(outbox)
        && userInput == old(userInput) && busy == old(busy)
      ensures Trim(old(userInput)) != "" ==>
        && chatLog == old(chatLog) + [ChatEntry(User, RenderedBody(Trim(old(userInput))))]
        && outbox == old(outbox) + (if hostAvailable then [AnalyzeAndChat(Some(Trim(old(userInput))))] else [])
        && userInput == "" && busy
    {
      var question := Trim(userInput);
      if question == "" {
        return;
      }
      busy := true;
      if hostAvailable {
        outbox := outbox + [AnalyzeAndChat(Some(question))];
      }
      AddMessageToChat(User, question);
      userInput := "";
    }

    /** `addFileToList`: appends the chip for one file. */
    method AddFileToList(name: string)
      modifies this`fileChips
      ensures fileChips == old(fileChips) + [ChipFor(name)]
    {
      fileChips := fileChips + [ChipFor(name)];
    }

    /** `updateSelectedFiles`: the chips are rebuilt from the host's list,
        one per path, in order. */
    method UpdateSelectedFiles(files: seq<string>)
      modifies this`fileChips
      ensures |fileChips| == |files|
      ensures forall i :: 0 <= i < |files| ==> fileChips[i] == ChipFor(files[i])
    {
      fileChips := [];
      for i := 0 to |files|
        invariant |fileChips| == i
        invariant forall j :: 0 <= j < i ==> fileChips[j] == ChipFor(files[j])
      {
        AddFileToList(files[i]);
      }
    }

    /** `removeFile`: removes the first chip whose text contains the name,
        and nothing else; with no such chip nothing changes. The host is not
        told. */
    method RemoveFile(fileName: string)
      modifies this`fileChips
      ensures (forall j :: 0 <= j < |old(fileChips)| ==> !ChipMatches(old(fileChips)[j], fileName)) ==>
        fileChips == old(fileChips)
      ensures forall k :: 0 <= k < |old(fileChips)| && ChipMatches(old(fileChips)[k], fileName) &&
                          (forall j :: 0 <= j < k ==> !ChipMatches(old(fileChips)[j], fileName)) ==>
        fileChips == old(fileChips)[..k] + old(fileChips)[k + 1..]
    {
      var found := FindFirst(fileChips, chip => ChipMatches(chip, fileName));
      if found.Some? {
        var k := found.value;
        fileChips := fileChips[..k] + fileChips[k + 1..];
      }
    }

    /** `removeFile` as intended: the chip removed is one made for exactly
        this name, so the names shown lose that one name and nothing else;
        without such a chip nothing changes. */
    method RemoveFileNamed(fileName: string)
      modifies this`fileChips
      ensures fileName !in ChipNames(old(fileChips)) ==> fileChips == old(fileChips)
      ensures fileName in ChipNames(old(fileChips)) ==>
        ChipNames(fileChips) == ChipNames(old(fileChips)) - multiset{fileName}
      ensures forall k :: 0 <= k < |old(fileChips)| && old(fileChips)[k].name == fileName &&
                          (forall j :: 0 <= j < k ==> old(fileChips)[j].name != fileName) ==>
        fileChips == old(fileChips)[..k] + old(fileChips)[k + 1..]
    {
      var found := FindFirst(fileChips, (chip: FileChip) => chip.name == fileName);
      if found.Some? {
        var k := found.value;
        RemovingOneChip(fileChips, k);
        fileChips := fileChips[..k] + fileChips[k + 1..];
      } else {
        NamesOfChips(fileChips, fileName);
      }
    }

    /** The listener for messages from the host. */
    method Receive(message: ViewMessage)
      modifies this`chatLog, this`fileChips, this`busy, this`attachIcon, this`playIcon
      ensures message.SetIcons? ==>
        && attachIcon == message.attachIconUri && playIcon == message.playIconUri
        && chatLog == old(chatLog) && fileChips == old(fileChips) && busy == old(busy)
      ensures message.ChatgptResponse? ==>
        && chatLog == old(chatLog) + [ChatEntry(Assistant, RenderedBody(message.text))]
        && !busy && fileChips == old(fileChips)
        && attachIcon == old(attachIcon) && playIcon == old(playIcon)
      ensures message.SelectedFiles? ==>
        && |fileChips| == |message.files|
        && (forall i :: 0 <= i < |message.files| ==> fileChips[i] == ChipFor(message.files[i]))
        && chatLog == old(chatLog) && busy == old(busy)
        && attachIcon == old(attachIcon) && playIcon == old(playIcon)
    {
      match message
      case SetIcons(attach, play) =>
        attachIcon := attach;
        playIcon := play;
      case ChatgptResponse(text) =>
        busy := false;
        AddMessageToChat(Assistant, text);
      case SelectedFiles(files) =>
        UpdateSelectedFiles(files);
    }
  }
}
