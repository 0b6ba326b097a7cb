/**
 * The Anthropic back end: the MIME type of an attachment from its extension, the
 * content block each attachment becomes, the message sent to the Messages API, and
 * the result hash built from what the client returns. The HTTP call itself is the
 * `client` parameter of `Generate`; the environment lookup of the API key is the
 * `apiKeyPresent` field of `Llm`.
 */
module Anthropic {
  import opened Errors
  import opened Strings

  /** An attached file: its path and the text `file.read` returns. */
  datatype Attachment = Attachment(path: string, body: string)

  /** `Base64.strict_encode64(raw)` (section 4 of RFC 4648), kept uninterpreted. */
  datatype Base64Data = Base64Of(raw: string)

  /** One entry of the `content` array of a user message. */
  datatype ContentBlock =
    | TextBlock(text: string)
    | ImageBlock(mediaType: string, data: Base64Data)
    | DocumentBlock(mediaType: string, data: Base64Data)

  datatype Message = Message(role: string, content: seq<ContentBlock>)

  /** The keyword arguments of `messages.create`. */
  datatype MessageRequest = MessageRequest(model: string, maxTokens: nat, messages: seq<Message>)

  const MaxTokens: nat := 4000

  /** `response.usage.to_h`: token counts by name. */
  type Usage = map<string, int>

  /**
   * The hash `generate` returns. Only `Succeeded` has a `:success` key; `ApiFailed`
   * carries the HTTP status of an API error, `Failed` has an error message only.
   */
  datatype Reply =
    | Succeeded(text: string, usage: Option<Usage>)
    | ApiFailed(error: string, status: Option<int>)
    | Failed(error: string)

  /**
   * What `@client.messages.create` does: return a response (the text of its first
   * content block, `None` when the content list is empty, and its usage), raise an
   * `Anthropic::Errors::APIError`, or raise any other error.
   */
  datatype ClientOutcome =
    | Response(firstText: Option<string>, usage: Option<Usage>)
    | ApiError(message: string, status: Option<int>)
    | OtherError(message: string)

  /** An `Llm::Anthropic` instance: its model name and whether the API key is set. */
  datatype Llm = Llm(model: string, apiKeyPresent: bool)

  const ApiKeyNotConfigured := "API key not configured"

  /** The message of the `NoMethodError` raised by `nil.text`. */
  const NilTextError := "undefined method 'text' for nil"

  // ---------------------------------------------------------------------------
  // determine_content_type

  /**
   * `File.extname`: the text from the last '.' of the final path component, or ""
   * when that component has no '.' or its only '.' leads it (a dotfile).
   */
  function Extname(path: string): (e: string)
    ensures e == [] || (e[0] == '.' && |e| <= |path| && e == path[|path| - |e|..])
    ensures forall i :: 1 <= i < |e| ==> e[i] != '.' && e[i] != '/'
  {
    ExtnameBefore(path, |path|)
  }

  /** `Extname` once the characters from `k` on are known to hold no '.' and no '/'. */
  function ExtnameBefore(path: string, k: nat): (e: string)
    requires k <= |path|
    requires forall i :: k <= i < |path| ==> path[i] != '.' && path[i] != '/'
    ensures e == [] || (e[0] == '.' && |e| <= |path| && e == path[|path| - |e|..])
    ensures forall i :: 1 <= i < |e| ==> e[i] != '.' && e[i] != '/'
  {
    if k == 0 || path[k - 1] == '/' then ""
    else if path[k - 1] == '.' then
      (if k == 1 || path[k - 2] == '/' then "" else path[k - 1..])
    else ExtnameBefore(path, k - 1)
  }

  /** The content types `determine_content_type` can give. */
  datatype ContentType =
    | ImageJpeg | ImagePng | ImageGif | ImageWebp | TextPlain | ApplicationPdf | OctetStream
  {
    /** The MIME type's text, as sent in `media_type` and in error messages. */
    function Name(): string
    {
      match this
      case ImageJpeg => "image/jpeg"
      case ImagePng => "image/png"
      case ImageGif => "image/gif"
      case ImageWebp => "image/webp"
      case TextPlain => "text/plain"
      case ApplicationPdf => "application/pdf"
      case OctetStream => "application/octet-stream"
    }

    predicate IsImage()
    {
      this in {ImageJpeg, ImagePng, ImageGif, ImageWebp}
    }
  }

  /** Which names match `/^image\//` and `/^text\//`: exactly the image types and `text/plain`. */
  lemma NamePrefixes(t: ContentType)
    ensures OccursAt(t.Name(), "image/", 0) <==> t.IsImage()
    ensures OccursAt(t.Name(), "text/", 0) <==> t == TextPlain
    ensures t.Name() == "application/pdf" <==> t == ApplicationPdf
  {
    match t
    case ImageJpeg => assert t.Name()[0] == 'i';
    case ImagePng => assert t.Name()[0] == 'i';
    case ImageGif => assert t.Name()[0] == 'i';
    case ImageWebp => assert t.Name()[0] == 'i';
    case TextPlain => assert t.Name()[0] == 't';
    case ApplicationPdf => assert t.Name()[0] == 'a';
    case OctetStream => assert t.Name()[0] == 'a';
  }

  /** Characters with no '.' and no '/' from `lo` on are skipped on the way to `lo`. */
  lemma {:induction false} ExtnameBeforeSkips(path: string, lo: nat, k: nat)
    requires lo <= k <= |path|
    requires forall i :: lo <= i < |path| ==> path[i] != '.' && path[i] != '/'
    ensures ExtnameBefore(path, k) == ExtnameBefore(path, lo)
    decreases k
  {
    if k > lo {
      ExtnameBeforeSkips(path, lo, k - 1);
    }
  }

  /** A name ending in `stem` + `ext`, where `ext` is a '.' and then no '.' or '/', has extension `ext`. */
  lemma ExtnameOfSuffix(stem: string, ext: string)
    requires |stem| > 0 && stem[|stem| - 1] != '/' && stem[|stem| - 1] != '.'
    requires |ext| > 0 && ext[0] == '.' && forall i :: 1 <= i < |ext| ==> ext[i] != '.' && ext[i] != '/'
    ensures Extname(stem + ext) == ext
  {
    var path := stem + ext;
    forall i | |stem| + 1 <= i < |path|
      ensures path[i] != '.' && path[i] != '/'
    {
      assert path[i] == ext[i - |stem|];
    }
    ExtnameBeforeSkips(path, |stem| + 1, |path|);
    assert path[|stem|] == '.' && path[|stem| - 1] == stem[|stem| - 1];
    assert path[|stem|..] == ext;
  }

  /** A final path component that starts with its only '.' (a dotfile) has no extension. */
  lemma ExtnameOfDotfile(dir: string, name: string)
    requires |dir| > 0 && dir[|dir| - 1] == '/'
    requires |name| > 0 && name[0] == '.' && forall i :: 1 <= i < |name| ==> name[i] != '.' && name[i] != '/'
    ensures Extname(dir + name) == ""
  {
    var path := dir + name;
    forall i | |dir| + 1 <= i < |path|
      ensures path[i] != '.' && path[i] != '/'
    {
      assert path[i] == name[i - |dir|];
    }
    ExtnameBeforeSkips(path, |dir| + 1, |path|);
    assert path[|dir|] == '.' && path[|dir| - 1] == '/';
  }

  /** A name that ends in '.' after other characters has the extension ".", as since Ruby 2.7. */
  lemma ExtnameOfTrailingDot(stem: string)
    requires |stem| > 0 && stem[|stem| - 1] != '.' && stem[|stem| - 1] != '/'
    ensures Extname(stem + ".") == "."
  {
    var path := stem + ".";
    assert path[|path| - 1] == '.' && path[|path| - 2] == stem[|stem| - 1];
  }

  /**
   * The `when` arms of `determine_content_type`, in order: the lower-case extensions
   * each arm lists and the type it gives.
   */
  const ContentTypeArms: seq<(seq<string>, ContentType)> := [
    ([".jpg", ".jpeg"], ImageJpeg),
    ([".png"], ImagePng),
    ([".gif"], ImageGif),
    ([".webp"], ImageWebp),
    ([".txt", ".md", ".rb", ".py", ".js", ".html", ".css", ".json", ".xml", ".yaml", ".yml"], TextPlain),
    ([".pdf"], ApplicationPdf)]

  /** The `case` statement: the type of the first arm listing `ext`, else `application/octet-stream`. */
  function CaseOf(ext: string, arms: seq<(seq<string>, ContentType)>): ContentType
  {
    if arms == [] then OctetStream
    else if ext in arms[0].0 then arms[0].1
    else CaseOf(ext, arms[1..])
  }

  /** A `case` whose arms do not list `ext` falls through to `application/octet-stream`. */
  lemma {:induction false} CaseOfUnlisted(ext: string, arms: seq<(seq<string>, ContentType)>)
    requires forall k :: 0 <= k < |arms| ==> ext !in arms[k].0
    ensures CaseOf(ext, arms) == OctetStream
  {
    if arms != [] {
      var tail := arms[1..];
      assert forall k :: 0 <= k < |tail| ==> tail[k] == arms[k + 1];
      CaseOfUnlisted(ext, tail);
    }
  }

  /** A `case` gives the type of arm `k` when it is the first arm listing `ext`. */
  lemma {:induction false} CaseOfFirstListing(ext: string, arms: seq<(seq<string>, ContentType)>, k: nat)
    requires k < |arms| && ext in arms[k].0
    requires forall j :: 0 <= j < k ==> ext !in arms[j].0
    ensures CaseOf(ext, arms) == arms[k].1
  {
    if k > 0 {
      var tail := arms[1..];
      assert forall j :: 0 <= j < k - 1 ==> tail[j] == arms[j + 1];
      CaseOfFirstListing(ext, tail, k - 1);
    }
  }

  /** A `case` whose arms list `ext` gives the type of some arm listing it. */
  lemma {:induction false} CaseOfListed(ext: string, arms: seq<(seq<string>, ContentType)>, k: nat)
    requires k < |arms| && ext in arms[k].0
    ensures exists i :: 0 <= i < |arms| && ext in arms[i].0 && CaseOf(ext, arms) == arms[i].1
  {
    if ext in arms[0].0 {
      assert CaseOf(ext, arms) == arms[0].1;
    } else {
      var tail := arms[1..];
      assert tail[k - 1] == arms[k];
      CaseOfListed(ext, tail, k - 1);
      var i :| 0 <= i < |tail| && ext in tail[i].0 && CaseOf(ext, tail) == tail[i].1;
      assert arms[i + 1] == tail[i];
    }
  }

  /**
   * A `case` over arms gives the type of the first arm listing `ext`, and
   * `application/octet-stream` when no arm lists it.
   */
  lemma CaseOfFirstArm(ext: string, arms: seq<(seq<string>, ContentType)>)
    ensures (forall k :: 0 <= k < |arms| ==> ext !in arms[k].0) ==> CaseOf(ext, arms) == OctetStream
    ensures forall k :: 0 <= k < |arms| && ext in arms[k].0 && (forall j :: 0 <= j < k ==> ext !in arms[j].0) ==>
              CaseOf(ext, arms) == arms[k].1
    ensures (exists k :: 0 <= k < |arms| && ext in arms[k].0) ==>
              exists k :: 0 <= k < |arms| && ext in arms[k].0 && CaseOf(ext, arms) == arms[k].1
  {
    if forall k :: 0 <= k < |arms| ==> ext !in arms[k].0 {
      CaseOfUnlisted(ext, arms);
    } else {
      var k :| 0 <= k < |arms| && ext in arms[k].0;
      CaseOfListed(ext, arms, k);
    }
    forall k | 0 <= k < |arms| && ext in arms[k].0 && (forall j :: 0 <= j < k ==> ext !in arms[j].0)
      ensures CaseOf(ext, arms) == arms[k].1
    {
      CaseOfFirstListing(ext, arms, k);
    }
  }

  /** The MIME type of an attachment, from its extension. */
  function DetermineContentType(path: string): ContentType
  {
    ExtensionContentType(Extname(path))
  }

  /** The MIME type for an extension, ignoring the case of its letters. */
  function ExtensionContentType(ext: string): ContentType
  {
    CaseOf(Downcase(ext), ContentTypeArms)
  }

  /**
   * `determine_content_type` gives `application/octet-stream` exactly for the
   * extensions no arm lists; a listed extension gets the type of the first arm
   * listing it.
   */
  lemma ContentTypeOfArms(ext: string)
    ensures (forall k :: 0 <= k < |ContentTypeArms| ==> ext !in ContentTypeArms[k].0)
            <==> CaseOf(ext, ContentTypeArms) == OctetStream
    ensures forall k :: 0 <= k < |ContentTypeArms| && ext in ContentTypeArms[k].0
                        && (forall j :: 0 <= j < k ==> ext !in ContentTypeArms[j].0) ==>
              CaseOf(ext, ContentTypeArms) == ContentTypeArms[k].1
  {
    CaseOfFirstArm(ext, ContentTypeArms);
    assert forall k :: 0 <= k < |ContentTypeArms| ==> ContentTypeArms[k].1 != OctetStream;
  }

  /**
   * An attachment is `application/octet-stream` exactly when no arm lists its
   * lower-cased extension; otherwise it gets the type of the first arm listing it.
   */
  lemma DetermineContentTypeByArms(path: string)
    ensures var ext := Downcase(Extname(path));
            (DetermineContentType(path) == OctetStream <==>
               forall k :: 0 <= k < |ContentTypeArms| ==> ext !in ContentTypeArms[k].0)
            && forall k :: 0 <= k < |ContentTypeArms| && ext in ContentTypeArms[k].0
                           && (forall j :: 0 <= j < k ==> ext !in ContentTypeArms[j].0) ==>
                 DetermineContentType(path) == ContentTypeArms[k].1
  {
    ContentTypeOfArms(Downcase(Extname(path)));
  }

  /** A JPEG attachment is an image, whatever the case of its extension. */
  lemma JpegExample()
    ensures DetermineContentType("/tmp/test.jpg") == ImageJpeg
    ensures DetermineContentType("photo.JPEG") == ImageJpeg
  {
    ExtnameOfSuffix("/tmp/test", ".jpg");
    assert "/tmp/test.jpg" == "/tmp/test" + ".jpg";
    assert Downcase(".jpg") == ".jpg";
    ExtnameOfSuffix("photo", ".JPEG");
    assert "photo.JPEG" == "photo" + ".JPEG";
    assert Downcase(".JPEG") == ".jpeg";
  }

  /** A Markdown file is plain text: no arm before the text arm lists ".md". */
  lemma MarkdownExample()
    ensures DetermineContentType("notes.MD") == TextPlain
  {
    ExtnameOfSuffix("notes", ".MD");
    assert "notes.MD" == "notes" + ".MD";
    assert Downcase(".MD") == ".md";
    ContentTypeOfArms(".md");
    assert ".md" in ContentTypeArms[4].0;
    assert forall j :: 0 <= j < 4 ==> forall e :: e in ContentTypeArms[j].0 ==> |e| >= 4;
  }

  /** A zip archive is unsupported. */
  lemma ZipExample()
    ensures DetermineContentType("/tmp/test.zip") == OctetStream
  {
    ExtnameOfSuffix("/tmp/test", ".zip");
    assert "/tmp/test.zip" == "/tmp/test" + ".zip";
    assert Downcase(".zip") == ".zip";
    ContentTypeOfArms(".zip");
    NoArmListsZip();
  }

  /** No listed extension starts ".z". */
  lemma NoArmListsZip()
    ensures forall k :: 0 <= k < |ContentTypeArms| ==> ".zip" !in ContentTypeArms[k].0
  {
    forall k, e | 0 <= k < |ContentTypeArms| && e in ContentTypeArms[k].0
      ensures e != ".zip"
    {
      assert e[1] != 'z';
    }
  }

  /** A dotfile named like an extension has no extension, so it is unsupported. */
  lemma DotfileExample()
    ensures DetermineContentType("/home/.md") == OctetStream
  {
    ExtnameOfDotfile("/home/", ".md");
    assert "/home/.md" == "/home/" + ".md";
    assert |Downcase("")| == 0;
    ContentTypeOfArms("");
    assert forall k :: 0 <= k < |ContentTypeArms| ==> "" !in ContentTypeArms[k].0;
  }

  predicate Supported(path: string)
  {
    DetermineContentType(path) != OctetStream
  }

  // ---------------------------------------------------------------------------
  // prepare_file_content

  /** The message of the error raised for an attachment of an unsupported type. */
  function UnsupportedFileType(contentType: string, path: string): string
  {
    "Unsupported file type: " + contentType + " for file: " + path
  }

  /**
   * The content block for one attachment: `when /^image\//`, `when /^text\//`,
   * `when "application/pdf"`, else raise. The names hold no line break, so the
   * line start `^` is the start of the name.
   */
  function PrepareFileContent(file: Attachment): (r: Outcome<ContentBlock>)
    ensures r.Raised? <==> !Supported(file.path)
    ensures r.Raised? ==> r.message == UnsupportedFileType("application/octet-stream", file.path)
  {
    var t := DetermineContentType(file.path);
    NamePrefixes(t);
    if OccursAt(t.Name(), "image/", 0) then Normal(ImageBlock(t.Name(), Base64Of(file.body)))
    else if OccursAt(t.Name(), "text/", 0) then Normal(TextBlock(file.body))
    else if t.Name() == "application/pdf" then Normal(DocumentBlock("application/pdf", Base64Of(file.body)))
    else Raised(UnsupportedFileType(t.Name(), file.path))
  }

  /**
   * Images become base64 image blocks whose media type is the image's type, text
   * files become text blocks holding the file's contents, PDFs become base64
   * document blocks.
   */
  lemma PrepareFileContentBlocks(file: Attachment)
    ensures var t := DetermineContentType(file.path);
            var r := PrepareFileContent(file);
            (t.IsImage() <==> r.Normal? && r.value.ImageBlock?)
            && (t.IsImage() ==> r.value == ImageBlock(t.Name(), Base64Of(file.body)))
            && (t == TextPlain <==> r.Normal? && r.value.TextBlock?)
            && (t == TextPlain ==> r.value == TextBlock(file.body))
            && (t == ApplicationPdf <==> r.Normal? && r.value.DocumentBlock?)
            && (t == ApplicationPdf ==> r.value == DocumentBlock("application/pdf", Base64Of(file.body)))
  {
    NamePrefixes(DetermineContentType(file.path));
  }

  /**
   * What the `files.each` loop leaves for a list of per-attachment outcomes: all the
   * blocks in order, or the first error, after which no later attachment is looked at.
   */
  function Collect(results: seq<Outcome<ContentBlock>>): Outcome<seq<ContentBlock>>
  {
    if results == [] then Normal([])
    else
      match Collect(results[..|results| - 1])
      case Raised(m) => Raised(m)
      case Normal(blocks) =>
        match results[|results| - 1]
        case Raised(m) => Raised(m)
        case Normal(b) => Normal(blocks + [b])
  }

  /**
   * The loop succeeds exactly when every outcome is a block, and then keeps them all
   * in order; otherwise its error is that of the first failing outcome.
   */
  lemma {:induction false} CollectMeaning(results: seq<Outcome<ContentBlock>>)
    ensures Collect(results).Normal? <==> forall i :: 0 <= i < |results| ==> results[i].Normal?
    ensures Collect(results).Normal? ==>
              |Collect(results).value| == |results|
              && forall i :: 0 <= i < |results| ==> results[i] == Normal(Collect(results).value[i])
    ensures Collect(results).Raised? ==>
              exists i :: 0 <= i < |results| && results[i] == Raised(Collect(results).message)
                          && forall j :: 0 <= j < i ==> results[j].Normal?
  {
    if results != [] {
      var n := |results| - 1;
      var init := results[..n];
      CollectMeaning(init);
      assert forall i :: 0 <= i < n ==> init[i] == results[i];
      match Collect(init)
      case Raised(m) =>
        var i :| 0 <= i < n && init[i] == Raised(m) && forall j :: 0 <= j < i ==> init[j].Normal?;
        assert results[i] == Raised(Collect(results).message);
      case Normal(blocks) =>
        if results[n].Raised? {
          assert results[n] == Raised(Collect(results).message);
        } else {
          var r := blocks + [results[n].value];
          assert forall i :: 0 <= i < n ==> results[i] == Normal(r[i]);
        }
    }
  }

  /** One more outcome after a successful prefix: its error, or one more block. */
  lemma CollectStep(results: seq<Outcome<ContentBlock>>, i: nat, blocks: seq<ContentBlock>)
    requires i < |results| && Collect(results[..i]) == Normal(blocks)
    ensures results[i].Raised? ==> Collect(results[..i + 1]) == Raised(results[i].message)
    ensures results[i].Normal? ==> Collect(results[..i + 1]) == Normal(blocks + [results[i].value])
  {
    assert results[..i + 1][..i] == results[..i];
  }

  /** Once some prefix of the outcomes fails, the whole list fails with the same error. */
  lemma {:induction false} CollectKeepsFailure(results: seq<Outcome<ContentBlock>>, k: nat)
    requires k <= |results| && Collect(results[..k]).Raised?
    ensures Collect(results) == Collect(results[..k])
    decreases |results| - k
  {
    if k < |results| {
      var next := results[..k + 1];
      assert next[..k] == results[..k];
      assert Collect(next) == Collect(results[..k]);
      CollectKeepsFailure(results, k + 1);
    } else {
      assert results[..k] == results;
    }
  }

  /** The outcome of `prepare_file_content` for each attachment. */
  function Prepared(files: seq<Attachment>): (rs: seq<Outcome<ContentBlock>>)
    ensures |rs| == |files| && forall i :: 0 <= i < |files| ==> rs[i] == PrepareFileContent(files[i])
  {
    seq(|files|, i requires 0 <= i < |files| => PrepareFileContent(files[i]))
  }

  /** The blocks for all attachments, or the error of the first unsupported one. */
  function PrepareAll(files: seq<Attachment>): Outcome<seq<ContentBlock>>
  {
    Collect(Prepared(files))
  }

  /**
   * Preparation succeeds exactly when every attachment is supported, and then gives
   * one block per attachment, in attachment order; otherwise it fails with the error
   * naming the first unsupported attachment.
   */
  lemma PrepareAllBlocksInOrder(files: seq<Attachment>)
    ensures PrepareAll(files).Normal? <==> forall i :: 0 <= i < |files| ==> Supported(files[i].path)
    ensures PrepareAll(files).Normal? ==>
              |PrepareAll(files).value| == |files|
              && forall i :: 0 <= i < |files| ==> PrepareFileContent(files[i]) == Normal(PrepareAll(files).value[i])
    ensures PrepareAll(files).Raised? ==>
              exists i :: 0 <= i < |files| && !Supported(files[i].path)
                          && PrepareAll(files).message == UnsupportedFileType("application/octet-stream", files[i].path)
                          && forall j :: 0 <= j < i ==> Supported(files[j].path)
  {
    if PrepareAll(files).Raised? {
      PrepareAllFailure(files);
    } else {
      PrepareAllSuccess(files);
    }
  }

  /** A failed preparation names the first unsupported attachment. */
  lemma PrepareAllFailure(files: seq<Attachment>)
    requires PrepareAll(files).Raised?
    ensures exists i :: 0 <= i < |files| && !Supported(files[i].path)
                        && PrepareAll(files).message == UnsupportedFileType("application/octet-stream", files[i].path)
                        && forall j :: 0 <= j < i ==> Supported(files[j].path)
  {
    var rs := Prepared(files);
    CollectMeaning(rs);
    var i :| 0 <= i < |rs| && rs[i] == Raised(PrepareAll(files).message)
              && forall j :: 0 <= j < i ==> rs[j].Normal?;
    assert !Supported(files[i].path);
  }

  /** A successful preparation holds each attachment's block at its index. */
  lemma PrepareAllSuccess(files: seq<Attachment>)
    requires PrepareAll(files).Normal?
    ensures |PrepareAll(files).value| == |files|
    ensures forall i :: 0 <= i < |files| ==> PrepareFileContent(files[i]) == Normal(PrepareAll(files).value[i])
  {
    var rs := Prepared(files);
    CollectMeaning(rs);
    var blocks := PrepareAll(files).value;
    forall i | 0 <= i < |files|
      ensures PrepareFileContent(files[i]) == Normal(blocks[i])
    {
      assert rs[i] == Normal(blocks[i]);
    }
  }

  // ---------------------------------------------------------------------------
  // generate

  /** The result hash for what the client call did. */
  function ReplyOf(c: ClientOutcome): (r: Reply)
    ensures r.Succeeded? <==> c.Response? && c.firstText.Some?
    ensures r.Succeeded? ==> r.text == c.firstText.value && r.usage == c.usage
    ensures r.ApiFailed? <==> c.ApiError?
    ensures r.ApiFailed? ==> r.error == "API request failed: " + c.message && r.status == c.status
    ensures r.Failed? && c.OtherError? ==> r.error == "Request failed: " + c.message
    ensures r.Failed? && c.Response? ==> r.error == "Request failed: " + NilTextError
  {
    match c
    case Response(Some(text), usage) => Succeeded(text, usage)
    case Response(None, _) => Failed("Request failed: " + NilTextError)
    case ApiError(message, status) => ApiFailed("API request failed: " + message, status)
    case OtherError(message) => Failed("Request failed: " + message)
  }

  /**
   * The request `generate` sends: the model, 4000 as `max_tokens`, and one user
   * message whose content is the prompt's text block followed by the attachments' blocks.
   */
  function RequestFor(llm: Llm, promptContent: string, blocks: seq<ContentBlock>): (req: MessageRequest)
    ensures req.model == llm.model && req.maxTokens == 4000
    ensures |req.messages| == 1 && req.messages[0].role == "user"
    ensures req.messages[0].content == [TextBlock(promptContent)] + blocks
  {
    MessageRequest(llm.model, MaxTokens, [Message("user", [TextBlock(promptContent)] + blocks)])
  }

  /**
   * `generate(prompt_content, files)`: a missing key raises first; then the
   * attachments are turned into blocks one by one, and the first unsupported one
   * raises (outside the `rescue`); otherwise one request is sent and the client's
   * outcome becomes the reply. `sent` is the request, if any was made.
   */
  method Generate(llm: Llm, promptContent: string, files: seq<Attachment>, client: ClientOutcome)
    returns (r: Outcome<Reply>, sent: Option<MessageRequest>)
    ensures !llm.apiKeyPresent ==> r == Raised(ApiKeyNotConfigured) && sent == None
    ensures llm.apiKeyPresent && PrepareAll(files).Raised? ==>
              r == Raised(PrepareAll(files).message) && sent == None
    ensures llm.apiKeyPresent && PrepareAll(files).Normal? ==>
              sent == Some(RequestFor(llm, promptContent, PrepareAll(files).value))
              && r == Normal(ReplyOf(client))
  {
    if !llm.apiKeyPresent {
      return Raised(ApiKeyNotConfigured), None;
    }
    ghost var rs := Prepared(files);
    var content := [TextBlock(promptContent)];
    ghost var blocks: seq<ContentBlock> := [];
    var i := 0;
    assert rs[..0] == [];
    while i < |files|
      invariant 0 <= i <= |files| == |rs|
      invariant content == [TextBlock(promptContent)] + blocks
      invariant Collect(rs[..i]) == Normal(blocks)
    {
      var block := PrepareFileContent(files[i]);
      assert block == rs[i];
      CollectStep(rs, i, blocks);
      if block.Raised? {
        CollectKeepsFailure(rs, i + 1);
        return Raised(block.message), None;
      }
      content := content + [block.value];
      blocks := blocks + [block.value];
      i := i + 1;
    }
    assert rs[..i] == rs;
    return Normal(ReplyOf(client)), Some(MessageRequest(llm.model, MaxTokens, [Message("user", content)]));
  }

  // ---------------------------------------------------------------------------
  // The `generate` oracle seen by the callers of an LLM

  /** A call of `generate(prompt, files)` on a service built for `model`. */
  datatype Request = Request(model: string, prompt: string, files: seq<Attachment>)

  /**
   * The answers of a stubbed `generate`, in call order: each is a reply or a raised
   * error; once they run out the last one repeats.
   */
  type Service = s: seq<Outcome<Reply>> | |s| > 0 witness [Raised("")]

  /** The answer to the call numbered `n` (from 0). */
  function Answer(service: Service, n: nat): (o: Outcome<Reply>)
    ensures o in service
    ensures n < |service| ==> o == service[n]
    ensures n >= |service| ==> o == service[|service| - 1]
  {
    if n < |service| then service[n] else service[|service| - 1]
  }
}
