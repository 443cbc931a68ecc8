# MuseApp chatbot: knowledge-base chunking, context, history and prompt

This Dafny project models the retrieval-augmented chatbot for MuseApp at the
level of its own logic. The embedding model, the vector index, storage and the
chat backend are all library code, and the model treats them as parameters.

- **Ingestion** (`ingest.dfy`, module `Ingest`). The three knowledge-base files
  are read in list order. Their contents are joined with `"\n"` and split on
  `"\n"`, so every line becomes a document, blank lines and empty files
  included. A document's position in the list is its id. The same list is
  embedded and kept beside the index.
- **Chat page** (`chatbot.dfy`, module `Chatbot`):
  - the context: the documents at the indices the search returned, joined
    with `"\n"` in search order;
  - the session's message list, which grows by a user message and then an
    assistant message on each turn;
  - the history of at most the last six messages, one `ROLE: content` line
    each;
  - the prompt template, with the role, then the context, then the history;
  - the booking link, shown when the lower-cased input contains `"book"`.
- **String operations** (`text.dfy`, module `Text`). These are Python's
  `"\n".join`, `str.split("\n")` and `in` on strings, plus ASCII
  `lower`/`upper`.

Parameters stand for what the code delegates:
- `read: string -> string` gives, for a path, what `open(path, "r", encoding="utf-8").read()` returns: the UTF-8-decoded text with every `"\r\n"` and lone `"\r"` already turned into `"\n"`;
- `embed: seq<string> -> seq<V>` is the sentence encoder, required to return
  one vector per text;
- `hits: seq<int>` is the index list the vector search returned for the input
  (three by default in the source);
- `reply: string -> string` is the language model's answer to a prompt.

## Model

| member | source | states |
|---|---|---|
| Text.Join | ingest.py:18 | `"\n".join`, no contract of its own: pinned by Text.JoinSplit and Text.SplitJoin as the inverse of Text.Split, and by Text.JoinNewlineCount |
| Text.Split | ingest.py:18 | splitting on newlines gives one piece more than there are newlines (so never an empty list), and no piece contains a newline |
| Text.JoinSplit | ingest.py:18 | joining the pieces of a split with newlines gives back the original text exactly |
| Text.SplitJoin | ingest.py:18 | joining a non-empty list of newline-free parts and splitting again gives back that list |
| Text.SplitAppend | ingest.py:18 | the pieces of `a + "\n" + b` are the pieces of `a` followed by the pieces of `b` |
| Text.SplitSingle | ingest.py:18 | a text without a newline is one piece, itself |
| Text.SplitEndsBlank | ingest.py:18 | a text ending in a newline has an empty last piece |
| Text.SplitBlankLine | ingest.py:18 | an empty line between two texts stays as an empty piece between their pieces |
| Text.JoinNewlineCount | ingest.py:18 | joining n parts produces at least n - 1 newlines |
| Text.Lower | chatbot.py:105 | lower-casing keeps the length, turns each ASCII capital into its own small letter, keeps every other character, and leaves no ASCII capital |
| Text.Upper | chatbot.py:65 | upper-casing keeps the length, turns each ASCII small letter into its own capital, keeps every other character, and leaves no ASCII small letter |
| Text.LowerForgetsCase | chatbot.py:105 | lower-casing an upper-cased or an already lowered text gives the same as lower-casing the text |
| Text.Contains | chatbot.py:105 | Python's `in` on strings, no contract of its own: pinned by Text.ContainsIff |
| Text.ContainsIff | chatbot.py:105 | the substring test holds exactly when the pattern occurs at some position |
| Ingest.ReadTexts | ingest.py:13-16 | the texts list has one entry per listed file, entry i being file i's contents |
| Ingest.Chunk | ingest.py:18 | the document count is the number of newlines in the joined text plus one, and no document contains a newline |
| Ingest.ChunkRoundTrip | ingest.py:18 | the documents rejoined with newlines equal the file contents joined with newlines |
| Ingest.ChunkAtLeastOnePerFile | ingest.py:13-18 | there are at least as many documents as files, and at least one |
| Ingest.KnowledgeBaseDocumentCount | ingest.py:7-18 | the three knowledge-base files give at least three documents |
| Ingest.ChunkOfNothing | ingest.py:18 | no files, or one empty file, give the single document `""` |
| Ingest.ChunkKeepsBlanks | ingest.py:18 | a file ending in a newline and an empty file each leave an empty document (`["a\n", "", "b"]` gives `["a", "", "", "b"]`) |
| Ingest.ChunkByFile | ingest.py:13-18 | the documents are the lines of file 0, then the lines of file 1, and so on |
| Ingest.FileDocuments | ingest.py:13-18 | the lines of file i stand, in order, at ids from `FileStart(texts, i)` onward |
| Ingest.FilesInOrder | ingest.py:13-18 | for i < j, every document of file i has a smaller id than every document of file j |
| Ingest.TrailingNewlineBlank | ingest.py:13-18 | a file ending in a newline puts an empty document just before the next file's first document |
| Ingest.Ingest | ingest.py:13-36 | the documents kept are the chunked file contents, the vectors are the embedding of that same list, and there are as many vectors as documents, at least one per file |
| Chatbot.Lookup | chatbot.py:45 | the looked-up texts: one per returned index, text k being the document at index k, in search order, duplicates kept |
| Chatbot.RetrieveContext | chatbot.py:42-45 | the looked-up texts joined with newlines into one string; no indices give the empty context, and over newline-free documents and at least one index the context splits back into exactly the looked-up texts (proved by Chatbot.ContextSplitsBack, spelled out per index by Chatbot.ContextLines) |
| Chatbot.ContextSplitsBack | chatbot.py:45 | over newline-free documents and at least one index, splitting the joined texts gives back exactly the looked-up texts |
| Chatbot.ContextLines | chatbot.py:42-45 | over newline-free documents, the context has exactly one line per returned index (hence one newline fewer than indices), line k being the document at index k; duplicates repeat |
| Chatbot.ContextOfNoHits | chatbot.py:45 | with no indices the context is the empty string |
| Chatbot.ContextAppend | chatbot.py:45 | one more index extends the context by a newline and that document's text |
| Chatbot.ContextOverKnowledgeBase | chatbot.py:45 | over the documents ingestion produced, the context splits back into exactly the retrieved documents in search order |
| Chatbot.Role.Label | chatbot.py:65 | the printed role, no contract of its own: pinned by Chatbot.LabelIsUpperName as the upper-cased stored name |
| Chatbot.LabelIsUpperName | chatbot.py:65 | the printed role label is the upper-cased stored role name |
| Chatbot.TurnKeepsAlternating | chatbot.py:52-54 | appending a user message and then an assistant message keeps the list alternating user, assistant |
| Chatbot.EveryQuestionAnswered | chatbot.py:52-54 | in an alternating list every user message is directly followed by an assistant message |
| Chatbot.Window | chatbot.py:64 | the window is the suffix of the messages of length min(6, count), in order |
| Chatbot.HistoryLine | chatbot.py:65 | one history line, `ROLE: content` and a newline; no contract of its own, used by Chatbot.HistoryText |
| Chatbot.HistoryText | chatbot.py:63-65 | the history lines of the messages first to last, no contract of its own: pinned by Chatbot.HistoryAppend, Chatbot.HistoryEmptyIff and Chatbot.BuildHistory |
| Chatbot.BuildHistory | chatbot.py:63-65 | the loop's result is the history text of the window of the messages |
| Chatbot.HistoryAppend | chatbot.py:63-65 | the history of two consecutive stretches of messages is the concatenation of their histories |
| Chatbot.HistoryEmptyIff | chatbot.py:63-65 | the history is empty if and only if there are no messages |
| Chatbot.LatestMessageInHistory | chatbot.py:52-65 | after a message is appended the window is up to five earlier messages plus it, and the history ends with its line |
| Chatbot.Prompt | chatbot.py:68-84 | the prompt is the fixed template text with the role, then the context, then the history, each whole at its own offset, the offsets in that order |
| Chatbot.MentionsBooking | chatbot.py:105 | the booking test, no contract of its own: pinned by Chatbot.BookingIgnoresCase and Chatbot.BookingWhenContained |
| Chatbot.BookingWhenContained | chatbot.py:105 | any input containing "book" as it stands, inside a longer word or not, shows the link |
| Chatbot.BookingIgnoresCase | chatbot.py:105 | the link is shown exactly when "book" occurs in the lower-cased input, and upper- or lower-casing the input does not change that |
| Chatbot.BookingInsideWord | chatbot.py:105 | "book" inside a longer word ("NoteBook") triggers the link, and "Hello" does not |
| Chatbot.Session.constructor | chatbot.py:33-34 | a new session has no messages |
| Chatbot.Session.Turn | chatbot.py:50-106 | an empty input changes nothing. Otherwise the messages become the old ones plus the user's message and then the reply to the prompt (role, context, history of the window including the user's message), the alternation is kept, and the link is shown exactly when the input mentions booking |

## Left out

- Embedding (`SentenceTransformer.encode`) is foreign code producing float vectors. It is the parameter `embed`, assumed to return one vector per text.
- The faiss index is foreign code over floats: building it, adding to it, L2 ranking, tie order, and padding of results with -1 when k exceeds the number of vectors. The search result is the parameter `hits`, required to be in range. A negative index would silently wrap in Python, so the model makes the range a precondition instead.
- Reading the files, creating the index directory, the faiss and pickle file formats, and loading them back are file I/O done by foreign libraries. Contents are the parameter `read`. The UTF-8 decoding and Python's universal-newline translation in text mode happen before `read`'s result, and the model does not capture them: a file saved with CRLF endings gives documents without `"\r"` only because of that translation. The store kept is the `VectorStore` value, with no save/load round-trip modelled.
- The Streamlit page is left out: title, caption, caching, replaying past messages on screen (chatbot.py:37-39), and rendering messages and the link. The role radio button is the `UserRole` datatype.
- The ollama call is network I/O. The reply is the parameter `reply`.
- Exceptions from `open`, `read_index`, `encode`, `index.search` or `ollama.chat` propagate unchanged in the source, which has no error handling of its own, so no error values are modelled.
- Text.Lower: maps only ASCII `A`-`Z`, whereas Python's `str.lower` applies full Unicode case mapping (for example the Kelvin sign lowers to `k`).
- Text.Upper: maps only ASCII `a`-`z`; it is used only on the fixed role names `user` and `assistant`, where the two agree.
- Chatbot.Session.Turn: the reply is a total parameter, so every modelled turn completes. In the source the user message is appended at chatbot.py:52 before `retrieve_context` (line 60) and `ollama.chat` (line 87), either of which can raise. A raising turn leaves a lone user message in the session, so the list can read user, user. `Alternating` (the session's `Valid`) is therefore an invariant of completed turns only.
