# CopChatBot routes: retrieval decision and upload naming, in Dafny

This project models two routes of a small retrieval-augmented chat backend.

- **`/chat`** (module `ChatRoute`, `chat.dfy`). The route embeds the query and scans every stored chunk in the store's enumeration order. It keeps the first chunk with the strictly highest similarity score, starting from a sentinel score of -1. A best score below the fixed relevance threshold 0.4 means "no relevant match": text and file are dropped, but the score is still returned. The route then does one of three things:
  - a failed query embedding is an HTTP 500;
  - no match is the fixed reply "I couldn't find relevant information." with no `document` key and no generation call;
  - otherwise it returns the generator's answer (or its fixed apology when the provider fails) together with the matched file name.

  The scan is the imperative method `FindRelevantDocument`. Its result is proved equal to the pure specification `FindRelevant`, which is the fold `Scan` followed by the threshold. `Scan` in turn is proved to meet the declarative predicate `IsFirstBest`: the maximum of -1 and all scores, attained first at the chosen item. `IsFirstBest` has only one solution.
- **`/documents/upload`** (module `UploadRoute`, `upload.dfy`). The extension is the lower-cased text after the last `.`, or the whole lower-cased name when there is no `.`. It is checked against `{"pdf", "docx", "xlsx"}`. The blob name is `document_<14-digit timestamp>_<8 hex digits>.<ext>`. The URL is `<blob url>/<container>/<name>?<token without all of its leading '?'>`. The round trip is proved: the extension read back from the blob name is the validated extension.

External collaborators are inputs:
- The embedding provider is an `Option<Vector>`.
- The document store read is an `Option<seq<Item>>`: the items in enumeration order, or None when the read raises.
- Cosine similarity is a function parameter `(Vector, Vector) -> real`.
- The completion provider is a `Completion` outcome.
- The clock and the random id are parameters. Preconditions state their formats: 14 decimal digits, and 8 lower-case hex digits.
- The blob store's success is a boolean.

Each route records the outbound calls it makes (embedding, store read, completion; blob upload). This makes "no retrieval" and "no generation" statable.

Where the code's behaviour is easy to miss, the model follows the code:
- A stored item lacking the `"vector"` key raises `KeyError` at `app/routes/chat.py:47`.
- An item whose `text` is JSON null raises `TypeError` when the debug preview slices it at `app/routes/chat.py:50`.
- Both exceptions escape the handler, so the request ends in the framework's HTTP 500, not in a degraded answer.
- A `file_name` that is present but null is not replaced by "Unknown File". It yields a `null` document.

## Model

| member | source | states |
|---|---|---|
| `ChatRoute.FileOf` | app/routes/chat.py:45 | A missing `file_name` key gives "Unknown File". A null one gives no file name. A stored name is kept as it is. |
| `ChatRoute.TextOf` | app/routes/chat.py:46 | A missing `text` key gives "". A stored text is kept as it is. |
| `ChatRoute.Scan` | app/routes/chat.py:40-56 | The running best never falls below the sentinel -1. It holds a text exactly when its score is above -1. Without a text it has no file. How the score relates to the items is stated by `ScanIsFirstBest`. |
| `ChatRoute.ScanIsFirstBest` | app/routes/chat.py:40-56 | The scan's score is the maximum of -1 and every item's score. If it beats -1, text and file come from the earliest item attaining it (strict `>` keeps the first of equal scores). Otherwise both are absent. |
| `ChatRoute.FirstBestUnique` | app/routes/chat.py:42-56 | That first-maximum description has exactly one solution, so it fully determines the scan's result. |
| `ChatRoute.FindRelevant` | app/routes/chat.py:36-63 | An empty store gives (None, None, -1). The call raises exactly when some item lacks a vector or has a null text. A returned text is absent exactly when the score is below 0.4. Without a text there is no file. |
| `ChatRoute.FindRelevantThreshold` | app/routes/chat.py:53-60 | The returned score is the unclamped maximum of -1 and all scores. Below 0.4, text and file are None. At or above 0.4, they are the text and file of the earliest item whose score equals the returned score. |
| `ChatRoute.FindRelevantDocument` | app/routes/chat.py:36-63 | The loop over the stored items returns exactly `FindRelevant`: the same error, the same thresholded best match and the same score. |
| `ChatRoute.GenerateResponse` | app/routes/chat.py:66-80 | The generator makes one completion call with the fixed model, the fixed system instruction and the prompt built from context and query. Its answer is the provider's content, or "Sorry, I couldn't process your request." when the provider fails. |
| `ChatRoute.GenerateResponseRequest` | app/routes/chat.py:66-80 | One completion request with the fixed model and system instruction. Its prompt holds the context and the query verbatim at their fixed places. The answer is the provider's content, or "Sorry, I couldn't process your request." on failure. |
| `ChatRoute.Chat` | app/routes/chat.py:84-94 | The query is always embedded first. Only a failed embedding stops there; otherwise the second call is the store read. A failed store read is a 500. A third call is made exactly when the reply carries a `document`, and that call is the completion call. A "not found" reply is the fixed text. Every error is a 500. |
| `ChatRoute.ChatEmbeddingFailure` | app/routes/chat.py:85-87 | A failed query embedding gives a 500 with "Failed to generate query embeddings.". Neither the store nor the generator is called. |
| `ChatRoute.ChatStoreReadFailure` | app/routes/chat.py:37 | A store read that raises makes the request a 500 "Internal Server Error", after the embedding call and with no generation. |
| `ChatRoute.ChatStoreFault` | app/routes/chat.py:44-51 | A stored item without a vector or with a null text makes the request a 500, after the store read and before any generation. |
| `ChatRoute.ChatNoRelevantMatch` | app/routes/chat.py:89-91 | The fixed "I couldn't find relevant information." reply, without `document` and without a generation call, comes exactly when every item scores below 0.4. |
| `ChatRoute.ChatAnswersFromFirstBest` | app/routes/chat.py:89-94 | When some item reaches 0.4, the reply is the generator's answer and `document` is the file of the earliest highest-scoring item. The completion prompt is built from that item's text. |
| `ChatRoute.EmptyTextStillGenerated` | app/routes/chat.py:45-46 | A matched item with no `text` and no `file_name` key still goes to generation with context "". Its document is "Unknown File". |
| `ChatRoute.TieKeepsFirst` | app/routes/chat.py:53-56 | With two items on the same top score, the reply names the earlier item's file. |
| `UploadRoute.AfterLastDot` | app/routes/upload.py:34 | The result is a suffix of the name without any `.`. When the name has a `.`, a `.` directly precedes it. Otherwise it is the whole name. |
| `UploadRoute.Lower` | app/routes/upload.py:34 | Length is kept and no upper-case letter remains. Every other character is unchanged. Each upper-case letter becomes its lower-case letter. |
| `UploadRoute.LowerIdempotent` | app/routes/upload.py:34 | Lower-casing twice equals lower-casing once. A text without upper-case letters is left as it is. |
| `UploadRoute.Extension` | app/routes/upload.py:34 | The extension never contains `.` or an upper-case letter. With no `.` in the name it is the whole lower-cased name. Otherwise it is the lower-cased text after a `.` that has no `.` after it. |
| `UploadRoute.NewFilename` | app/routes/upload.py:39-41 | The generated name is `document_`, the 14-digit timestamp, `_`, the 8-digit id, `.`, then the extension, each field at its fixed position. |
| `UploadRoute.AfterLastDotOfDotted` | app/routes/upload.py:34-41 | The last-dot segment of `stem.ext` is `ext` whenever `ext` holds no `.`. |
| `UploadRoute.StoredNameRoundTrip` | app/routes/upload.py:34-41 | Reading the extension back from the generated name gives the validated extension of the uploaded name. |
| `UploadRoute.LStripQuestion` | app/routes/upload.py:48 | The result is a suffix of the token, all dropped characters are `?`, and the result does not begin with `?`. |
| `UploadRoute.LStripQuestionUnique` | app/routes/upload.py:48 | Any suffix with those three properties is the stripped token. |
| `UploadRoute.LStripQuestionIdempotent` | app/routes/upload.py:48 | Stripping twice equals stripping once. A token not starting with `?` is kept whole. |
| `UploadRoute.FileUrl` | app/routes/upload.py:48 | The URL is the head `<blob url>/<container>/<name>?` followed by the stripped token, and its length is the sum of the two. |
| `UploadRoute.FileUrlQuery` | app/routes/upload.py:48 | The URL starts with `<blob url>/<container>/<name>?`. The text after that `?` never begins with `?`. The token is some number of `?` followed by exactly that text. |
| `UploadRoute.UploadDocument` | app/routes/upload.py:28-50 | A 400 "Only PDF, DOCX, and XLSX files are allowed" comes exactly when the extension is not pdf, docx or xlsx, and then no upload is attempted. Otherwise exactly one upload happens, under `NewFilename` of the timestamp, the id and the extension. When the store accepts, the reply is "File uploaded successfully" with `FileUrl` of that name. When the store raises, the reply is a 500. |
| `UploadRoute.UploadedNameCarriesExtension` | app/routes/upload.py:34-48 | An accepted upload stores exactly one blob, named `NewFilename` of the timestamp, id and extension. That name carries the prefix, timestamp and id at their places, and its extension reads back as the uploaded name's allowed extension. The returned URL names that blob. |
| `UploadRoute.BareNameIsItsOwnExtension` | app/routes/upload.py:34-36 | A name without `.`, such as "PDF", is judged by its whole lower-cased text and is accepted. |
| `UploadRoute.ExtensionOfDotted` | app/routes/upload.py:34 | For any stem, the extension of `stem.ext` is the lower-cased `ext` whenever `ext` holds no `.`. |
| `UploadRoute.OnlyLastSegmentCounts` | app/routes/upload.py:34-36 | Any name ending in ".pdf.exe" has extension "exe" and is rejected, whatever comes before. |

## Left out

- Cosine similarity (sklearn/numpy, square roots and float64 rounding) is not computed. Scores are exact reals from a given similarity function. The comparisons `score > highest_score` and `highest_score < 0.4` are made on reals, so float64 rounding of 0.4 and NaN scores are not modelled.
- A query vector whose length differs from a stored vector makes the similarity library raise. The model's similarity function is total, so this is not modelled.
- Item fields are absent, JSON null or a string. Other JSON types (numbers, lists) in `text` or `file_name` are not modelled.
- The provider clients (embeddings, chat completions), the document store client and the blob store client are inputs or outcomes, not code. A completion whose content is null is not modelled.
- Debug `print` output is left out, but the exception the text preview can raise is modelled.
- Python's Unicode `str.lower()` is modelled as ASCII lower-casing only.
- The timestamp from the UTC clock and the id from `uuid4` are parameters. Preconditions state their formats.
- app/routes/chat_history.py (SQL history storage) is not part of this model.
- Chunking, batch embedding and the ingestion pipeline are not part of this model. No source for them is available.
- Process-wide client initialisation and the FastAPI routing are not modelled.
