# Retrieval pipeline of a document question-answering demo, modelled in Dafny

The demo takes an uploaded PDF or Word document and a question. It extracts the
document's text and cuts it into fixed-size chunks. It embeds the chunks, finds
the chunks nearest to the question and puts them into a fixed prompt template.
It then sends the prompt to a hosted language model and returns the reply. Any
failure along the way becomes one error line that starts with "❌ Error: ".

This project models the string handling of that pipeline, which is all of the
repository's own logic:

- `results.dfy`: `Option` and a failure-compatible `Result` whose error is the text `str(e)` gives for the exception raised.
- `text.dfy`: Python's `str.endswith`, slicing with negative and out-of-range bounds, `sep.join`, `"".join`, and splitting on one character. Splitting is the inverse used to state that a join keeps its parts in order.
- `chunker.dfy`: `range(start, stop, step)` and `chunk_text`, which the pipeline calls at its default size of 500.
- `extractor.dfy`: the suffix dispatch of `extract_text` and the newline join of pages or paragraphs.
- `retrieval.dfy`: the mapping of returned indices to chunks in `search_faiss`, with Python's list indexing, and the newline-joined context.
- `pipeline.dfy`: the prompt template and `rag_pipeline`, composed stage by stage with early return on the first failure.

The PDF reader, the Word reader, the embedding and vector search, and the
chat-completion request are foreign code. They enter the model as the function
fields of the `Extractor.Readers` and `Pipeline.Services` records. Each one
yields its result or the message of the exception it raises.

## Model

| member | source | states |
|---|---|---|
| Chunker.Range | app.py:28 | `range(start, stop, step)` has `RangeLength` values and value k is `start + k*step`. For a positive step every value lies in `[start, stop)`, one more step would reach `stop`, and the range is empty exactly when `stop <= start`. For a negative step every value lies in `(stop, start]`, and the range is empty exactly when `start <= stop`. |
| Chunker.RangeMembershipUp | app.py:28 | For a positive step, x is in the range exactly when `start <= x < stop` and x is a whole number of steps from `start`. |
| Chunker.RangeMembershipDown | app.py:28 | For a negative step, x is in the range exactly when `stop < x <= start` and x is a whole number of steps below `start`. |
| Chunker.ChunkText | app.py:28 | Definition of the list comprehension: one `text[i:i+size]` per `i` in `range(0, len(text), size)`. Its properties are stated by ChunkAt, ChunkCount, ChunkLengths, ChunkTextUnfold and ChunksConcat. |
| Chunker.ChunkTextChecked | app.py:27-28 | `chunk_text` for any integer size. A zero size fails with the `range` ValueError message, and only a zero size fails. A negative size gives no chunks, because the range is then empty. A positive size gives non-empty chunks of at most `size` characters, ⌈len(text)/size⌉ of them, whose concatenation is the text. |
| Chunker.ChunkAt | app.py:28 | Chunk j starts at offset `j*size` inside the text and equals `text[j*size .. min((j+1)*size, len(text))]`. So chunks are ordered, do not overlap, and depend only on text and size. |
| Chunker.ChunkCount | app.py:28 | The number of chunks is ⌈len(text)/size⌉: enough chunks of `size` to cover the text, and one fewer would not cover it. There are no chunks exactly when the text is empty. |
| Chunker.ChunkLengths | app.py:28 | Every chunk but the last has exactly `size` characters. The last has between 1 and `size`. No chunk is empty. |
| Chunker.ChunksConcat | app.py:28 | Concatenating all chunks gives back the text exactly. |
| Chunker.ChunkTextUnfold | app.py:28 | Recursive characterisation: the first chunk is the first `size` characters (or the whole text), followed by the chunks of the remainder. Empty text gives no chunks. |
| Chunker.TwelveHundredCharacters | app.py:27-28 | At the default size of 500, a 1200-character text gives three chunks of 500, 500 and 200 characters. |
| Text.EndsWith | app.py:18-21 | Definition of `str.endswith`; EndsWithIffSuffix states what it means. |
| Text.EndsWithIffSuffix | app.py:18-21 | `s.endswith(t)` holds exactly when `s` is some string followed by `t`. |
| Text.Slice | app.py:28 | `s[i:j]` with Python's bound rules: never longer than `s`; for `0 <= i <= j` it has `min(j, len) - min(i, len)` characters and is `s[i..min(j, len)]` when `i < len`; it is empty when `0 <= j <= i`. |
| Text.SliceFromEnd | app.py:28 | A negative slice bound counts from the end: with `-len(s) <= i < 0`, `s[i:j]` is `s[len(s)+i:j]`, and likewise for `j`. The chunker itself only slices with non-negative bounds. |
| Text.Join | app.py:20-23 | Definition of `sep.join(parts)`; SplitJoin states that a one-character join keeps every part in order. |
| Text.SplitJoin | app.py:20-23 | Joining a non-empty list of parts on a one-character separator that none of them contains can be undone by splitting. So the join keeps every part, in order. |
| Extractor.FormatOf | app.py:17-25 | A `.pdf` path selects the page branch and a `.docx` path the paragraph branch. Any other path fails with "Unsupported file format". No path ends in both suffixes. |
| Extractor.ExtractText | app.py:17-25 | Definition of `extract_text`; FormatOf, PdfBranch, DocxBranch, UnsupportedBranch, ExtractionFailureOrigin, FormatIndependence and ExtractionKeepsOrder state its behaviour. |
| Extractor.PdfBranch | app.py:18-20 | A `.pdf` path extracts to its pages joined by newlines, or to the PDF reader's error. The Word reader plays no part. |
| Extractor.DocxBranch | app.py:21-23 | A `.docx` path extracts to its paragraphs joined by newlines, or to the Word reader's error. The PDF reader plays no part. |
| Extractor.UnsupportedBranch | app.py:24-25 | Any other path fails with "Unsupported file format", whatever the readers would do. |
| Extractor.ExtractionFailureOrigin | app.py:17-25 | An extraction fails only with "Unsupported file format" for a path with neither suffix, or with the error of the reader the suffix selects. |
| Extractor.FormatIndependence | app.py:17-23 | A PDF and a Word document that carry the same strings extract to the same newline-joined text. |
| Extractor.ExtractionKeepsOrder | app.py:20-23 | When no page or paragraph contains a newline, splitting the extracted text on newlines gives the pages or paragraphs back in their original order. |
| Retrieval.Lookup | app.py:42 | `chunks[i]` succeeds exactly for `-len <= i < len`, and then gives `chunks[i mod len]`: a non-negative index directly, a negative one counted from the end. Any other index fails with "list index out of range". |
| Retrieval.SelectChunks | app.py:42 | The comprehension succeeds exactly when every index is in range. It then gives one chunk per index, each the lookup of that index, in the order returned. Otherwise it fails with the IndexError message. |
| Retrieval.SelectInRange | app.py:42 | With all indices in `0..len-1`, the retrieved chunks are `chunks[indices[k]]` for every k, in order, repeats kept. |
| Retrieval.Context | app.py:63 | Definition of `"\n".join(relevant)`; ContextKeepsOrder states that it keeps the retrieved chunks in order. |
| Retrieval.ContextKeepsOrder | app.py:62-63 | When no retrieved chunk contains a newline, splitting the context on newlines gives back the retrieved chunks in retrieval order. |
| Pipeline.Prompt | app.py:65 | The prompt is the fixed header, then the context, then "\n\nQuestion: ", then the question, each at its fixed offset. |
| Pipeline.Answer | app.py:56-66 | Definition of the body of the `try` block, stage by stage with the first failure deciding the error; SuccessReturnsReply, FailureOrigin and the failure lemmas state its behaviour. |
| Pipeline.RagPipeline | app.py:55-70 | Definition of `rag_pipeline`: the reply, or the marked error line; the lemmas below state its output for each outcome. |
| Pipeline.PromptInjective | app.py:65 | For a fixed question, two prompts are equal exactly when their contexts are equal. |
| Pipeline.SuccessReturnsReply | app.py:55-67 | When every stage succeeds, the pipeline returns the generator's reply unchanged. The generator was asked with the template filled in with the newline-joined chunks at the returned indices. |
| Pipeline.GenerationFailureReported | app.py:65-70 | A failed generation request comes out as "❌ Error: " followed by its message. |
| Pipeline.ExtractionFailureReported | app.py:58-70 | A failed extraction comes out as "❌ Error: " followed by its message. The result does not depend on the search or the generator. |
| Pipeline.UnsupportedFileReported | app.py:58-70 | A file that is neither `.pdf` nor `.docx` comes out as "❌ Error: Unsupported file format", for any services. |
| Pipeline.NoUploadReported | app.py:56-70 | Running without an upload comes out as "❌ Error: " followed by the AttributeError text of `file.name` on `None`. |
| Pipeline.SearchFailureReported | app.py:60-70 | A failed embedding or search comes out as "❌ Error: " followed by its message. The result does not depend on the generator. |
| Pipeline.FailureOrigin | app.py:56-70 | Whenever the body of the `try` block fails, its message is one a stage raised: the missing upload's AttributeError, "Unsupported file format" for a path with neither suffix, the error of the reader the suffix selects, the search's error on the document's chunks, "list index out of range" when the search returned an index outside the chunk list, or the generator's error on the template filled with this run's retrieved chunks. |

## Left out

- PDF and Word parsing (`fitz`, `python-docx`, app.py:19-23) are foreign libraries. They are modelled only as the strings they yield or the error they raise. Opening and closing the file is not modelled.
- Sentence embedding, FAISS index construction and L2 nearest-neighbour search (app.py:14, 30-37, 40-41) are foreign code on floating point. They are one opaque `search` function returning indices or an error. Its tie-breaking, and its padding with -1 when `top_k` exceeds the chunk count, are not modelled. No lemma relies on an index being negative.
- The HTTP call to the Groq API, the response indexing and the bearer credential (app.py:11, 44-53) are network I/O. They are one opaque `generate` function.
- The Gradio interface and launch (app.py:73-101) are UI glue.
- The process-wide `groq_api_key` and `embedder` (app.py:11, 14) are initialise-once configuration. They are folded into the `Services` record passed to each call.
- Strings are sequences of Unicode scalar values. Python strings are sequences of code points, which may include lone surrogates. Those cannot appear here.
- The error a stage raises is modelled only by its `str(e)` text. The exception's class is dropped because the pipeline renders nothing else.
- The error for an unsupported format is the fixed text "Unsupported file format". It does not name the extension, and the model keeps that text.
