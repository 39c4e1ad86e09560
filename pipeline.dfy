/** `rag_pipeline`: extract, chunk, retrieve, assemble the prompt and ask the
    generator, with every failure turned into one marked error line. The
    embedding model, the vector index and the hosted language model are
    foreign and appear as the functions of a `Services` record. */
module Pipeline {
  import opened Results
  import opened Text
  import opened Chunker
  import opened Extractor
  import opened Retrieval

  /** The marker that starts every error the pipeline reports. */
  const ErrorMarker := "\U{274C} Error: "

  const PromptHeader := "Answer the question using the following context:\n\n"
  const QuestionLabel := "\n\nQuestion: "

  /** `str(e)` of the `AttributeError` raised by `file.name` when nothing was uploaded. */
  const NoUpload := "'NoneType' object has no attribute 'name'"

  /** The foreign stages. `search(chunks, question, k)` stands for embedding
      the chunks, building the flat L2 index, embedding the question and
      asking for its `k` nearest chunks; `generate(prompt)` stands for the
      chat-completion request and the reading of the first choice's content.
      Each yields its result or the message of the exception it raises. */
  datatype Services = Services(
    readers: Readers,
    search: (seq<string>, string, nat) -> Result<seq<int>>,
    generate: string -> Result<string>)

  /** The prompt template: the fixed header, the context, the question label
      and the question, each at its fixed place. */
  function Prompt(context: string, question: string): (p: string)
    ensures |p| == |PromptHeader| + |context| + |QuestionLabel| + |question|
    ensures p[..|PromptHeader|] == PromptHeader
    ensures p[|PromptHeader|..|PromptHeader| + |context|] == context
    ensures p[|PromptHeader| + |context|..|p| - |question|] == QuestionLabel
    ensures p[|p| - |question|..] == question
  {
    PromptHeader + context + QuestionLabel + question
  }

  /** For a given question the prompt determines the context. */
  lemma PromptInjective(context1: string, context2: string, question: string)
    ensures Prompt(context1, question) == Prompt(context2, question) <==> context1 == context2
  {
    if Prompt(context1, question) == Prompt(context2, question) {
      var p := Prompt(context1, question);
      assert |context1| == |context2|;
      assert context1 == p[|PromptHeader|..|PromptHeader| + |context1|] == context2;
    }
  }

  /** The body of the `try` block, with the first failing stage deciding the error. */
  function Answer(file: Option<string>, question: string, services: Services): Result<string>
  {
    var path :- if file.Some? then Ok(file.value) else Err(NoUpload);
    var text :- ExtractText(path, services.readers);
    var chunks := ChunkTextChecked(text, DefaultChunkSize).value;
    var indices :- services.search(chunks, question, TopK);
    var relevant :- SelectChunks(chunks, indices);
    services.generate(Prompt(Context(relevant), question))
  }

  /** `rag_pipeline(file, question)`: the generator's reply, or the marked error line. */
  function RagPipeline(file: Option<string>, question: string, services: Services): string
  {
    match Answer(file, question, services)
    case Ok(reply) => reply
    case Err(message) => ErrorMarker + message
  }

  /** The prompt the generator receives once extraction and retrieval have
      succeeded with indices in range. */
  function ExpectedPrompt(text: string, indices: seq<int>, question: string): string
    requires forall k :: 0 <= k < |indices| ==> 0 <= indices[k] < |ChunkText(text, DefaultChunkSize)|
  {
    var chunks := ChunkText(text, DefaultChunkSize);
    Prompt(Join("\n", seq(|indices|, k requires 0 <= k < |indices| => chunks[indices[k]])), question)
  }

  /** When every stage succeeds the pipeline returns the generator's reply
      unchanged, and the generator was asked with the template filled in
      with the newline-joined chunks at the returned indices, in order. */
  lemma SuccessReturnsReply(path: string, question: string, services: Services,
                            text: string, indices: seq<int>, reply: string)
    requires ExtractText(path, services.readers) == Ok(text)
    requires services.search(ChunkText(text, DefaultChunkSize), question, TopK) == Ok(indices)
    requires forall k :: 0 <= k < |indices| ==> 0 <= indices[k] < |ChunkText(text, DefaultChunkSize)|
    requires services.generate(ExpectedPrompt(text, indices, question)) == Ok(reply)
    ensures RagPipeline(Some(path), question, services) == reply
  {
    SelectInRange(ChunkText(text, DefaultChunkSize), indices);
  }

  /** A failed generation request (a network error, a refused credential, a
      response without choices) is reported as the marker and its message. */
  lemma GenerationFailureReported(path: string, question: string, services: Services,
                                  text: string, indices: seq<int>, message: string)
    requires ExtractText(path, services.readers) == Ok(text)
    requires services.search(ChunkText(text, DefaultChunkSize), question, TopK) == Ok(indices)
    requires forall k :: 0 <= k < |indices| ==> 0 <= indices[k] < |ChunkText(text, DefaultChunkSize)|
    requires services.generate(ExpectedPrompt(text, indices, question)) == Err(message)
    ensures RagPipeline(Some(path), question, services) == ErrorMarker + message
  {
    SelectInRange(ChunkText(text, DefaultChunkSize), indices);
  }

  /** A failed extraction is reported as the marker and its message, and
      neither the search nor the generator is consulted. */
  lemma ExtractionFailureReported(path: string, question: string, services: Services, message: string,
                                  search: (seq<string>, string, nat) -> Result<seq<int>>,
                                  generate: string -> Result<string>)
    requires ExtractText(path, services.readers) == Err(message)
    ensures RagPipeline(Some(path), question, services) == ErrorMarker + message
    ensures RagPipeline(Some(path), question, services) ==
            RagPipeline(Some(path), question, services.(search := search, generate := generate))
  {
  }

  /** A file that is neither `.pdf` nor `.docx` gives the marked
      "Unsupported file format" line, whatever the services would do. */
  lemma UnsupportedFileReported(path: string, question: string, services: Services)
    requires !EndsWith(path, PdfSuffix) && !EndsWith(path, DocxSuffix)
    ensures RagPipeline(Some(path), question, services) == ErrorMarker + UnsupportedFormat
  {
    UnsupportedBranch(path, services.readers);
  }

  /** Running without an upload gives the marked `AttributeError` line. */
  lemma NoUploadReported(question: string, services: Services)
    ensures RagPipeline(None, question, services) == ErrorMarker + NoUpload
  {
  }

  /** A failed search (embedding or indexing) is reported as the marker and
      its message, and the generator is not consulted. */
  lemma SearchFailureReported(path: string, question: string, services: Services,
                              text: string, message: string, generate: string -> Result<string>)
    requires ExtractText(path, services.readers) == Ok(text)
    requires services.search(ChunkText(text, DefaultChunkSize), question, TopK) == Err(message)
    ensures RagPipeline(Some(path), question, services) == ErrorMarker + message
    ensures RagPipeline(Some(path), question, services) ==
            RagPipeline(Some(path), question, services.(generate := generate))
  {
  }

  /** Nothing but a stage can make the pipeline fail, and every failure
      carries the message of the stage that raised it: the missing upload,
      the unsupported suffix, the reader the suffix selects, the search on
      the document's chunks, an index outside the chunk list among those the
      search returned, or the generator asked with the template filled with
      this run's retrieved chunks. */
  lemma {:induction false} FailureOrigin(file: Option<string>, question: string, services: Services, m: string)
    requires Answer(file, question, services) == Err(m)
    ensures file.None? ==> m == NoUpload
    ensures file.Some? ==>
      var path := file.value;
      (m == UnsupportedFormat && !EndsWith(path, PdfSuffix) && !EndsWith(path, DocxSuffix)) ||
      (EndsWith(path, PdfSuffix) && services.readers.pdfPages(path) == Err(m)) ||
      (EndsWith(path, DocxSuffix) && services.readers.docxParagraphs(path) == Err(m)) ||
      (exists text :: ExtractText(path, services.readers) == Ok(text) &&
         services.search(ChunkText(text, DefaultChunkSize), question, TopK) == Err(m)) ||
      (exists text, indices :: ExtractText(path, services.readers) == Ok(text) &&
         services.search(ChunkText(text, DefaultChunkSize), question, TopK) == Ok(indices) &&
         SelectChunks(ChunkText(text, DefaultChunkSize), indices).Err? && m == IndexOutOfRange) ||
      (exists text, indices :: ExtractText(path, services.readers) == Ok(text) &&
         services.search(ChunkText(text, DefaultChunkSize), question, TopK) == Ok(indices) &&
         SelectChunks(ChunkText(text, DefaultChunkSize), indices).Ok? &&
         services.generate(Prompt(Context(SelectChunks(ChunkText(text, DefaultChunkSize), indices).value),
                                  question)) == Err(m))
  {
    if file.Some? {
      var path := file.value;
      match ExtractText(path, services.readers) {
        case Err(_) =>
          ExtractionFailureOrigin(path, services.readers, m);
        case Ok(text) =>
          var chunks := ChunkText(text, DefaultChunkSize);
          match services.search(chunks, question, TopK) {
            case Err(_) =>
            case Ok(indices) =>
              match SelectChunks(chunks, indices) {
                case Err(_) =>
                case Ok(relevant) =>
                  assert services.generate(Prompt(Context(relevant), question)) == Err(m);
              }
          }
      }
    }
  }
}
