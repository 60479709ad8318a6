# LangGraph chatbot: thread registry, titles, tables and calculator

This project is a Dafny model of the bookkeeping core of a Streamlit chat application. The application is backed by a LangGraph agent. The model covers four things:

- **Session state** (`app.py`). Streamlit's `st.session_state` becomes the class `ChatApp.Session`. It holds the current thread id, the displayed message history, the ordered list of known threads and the map from thread id to title. A `const store` field refers to the backend whose table functions the application calls.
- **Thread titles** (`app.py`, `generate_unique_thread_title`). The base title is the first five words of the first user message, capitalized, with `"..."` appended when words were dropped. When that title is already used, the least numbered variant `" (n)"` with n ≥ 2 that is free is chosen.
- **The two SQLite tables** (`langgraph_database_backend.py`). These are `threads` (id → title) and `stategraph` (id → state data). Each has a primary key on `thread_id`, so they are modelled as two maps in the class `ChatBackend.ChatDatabase`.
- **The `calculator` tool** (`langgraph_database_backend.py`). It is a pure function over exact reals. It returns either the echoed request with its result, or an error payload.

Module `Text` holds the Python string operations the title depends on:

- `str.split()` with no separator, over the code points that `str.isspace()` accepts;
- `" ".join`;
- `str.capitalize()` and `str.lower()`, on ASCII letters;
- `str(n)` for a natural number.

Main results:

- **Titles.** The generated title is never one of the session's own thread titles. It is the base title exactly when that title is free. Otherwise it is the least free numbered variant, and that answer is unique. The generator loop terminates because the set of used titles is finite and numbered titles are injective in n.
- **Base title.** Lemmas characterize the base title word by word, show that it is empty exactly for an all-whitespace message, and show that building a base title from a base title gives it back unchanged.
- **Registration.** `AddThread` changes nothing for a known id. For a new id it appends the id, records the title and upserts it in the store. It keeps the session invariant: the thread list has no duplicates and holds exactly the ids that have a title. When registering under a placeholder title, as every call does, it also keeps the invariant that no two threads share a title other than a placeholder. Retitling on the first message keeps both.
- **Tables.** The table methods are upsert, delete-one and delete-all, and each states its exact new state. The read methods return exactly the `threads` map, or each of its keys once.

A generated title can be `""` when the message is only whitespace. `""` is itself one of the placeholder titles, so the next message retitles the thread again; the model keeps that behaviour.

A message of five words or fewer, such as `"Hello there friend today"`, gets no `"..."`; only a message of more than five words does (app.py:21). `Titles.NumberingExample` shows the numbering: with `"Hello there"` and `"Hello there (2)"` taken, the title chosen for base `"Hello there"` is `"Hello there (3)"`.

`app.py` imports the table functions from a module `chatbot_ollama`, which is not part of this model. The model assumes those functions behave as in `langgraph_database_backend.py`.

## Model

| member | source | states |
|---|---|---|
| Text.Split | app.py:20 | `str.split()`: every word it yields is non-empty and contains no whitespace character |
| Text.SplitAtSpace | app.py:20 | on every input, one whitespace character cuts the text into two halves whose words concatenate to the words of the whole; with `SplitEmpty` and a lone word splitting to itself, this fixes the words of any text as its maximal whitespace-free runs, in order, whatever the runs of spaces, tabs or newlines between them |
| Text.SplitJoin | app.py:20-21 | splitting words that were joined with single spaces gives back exactly those words |
| Text.SplitEmpty | app.py:20 | a message yields no words exactly when every character of it is whitespace |
| Text.NatToString | app.py:27 | `str(counter)`: a non-empty run of decimal digits, starting with `0` only for zero |
| Text.ParseNatToString | app.py:27 | reading the decimal rendering of n back gives n, so distinct counters give distinct strings |
| Titles.BaseTitleWords | app.py:20-21 | the base title has min(5, word count) words; each equals the message's word up to case, with `"..."` on the fifth exactly when the message had more than five words; the words are joined by single spaces; the title is already capitalized |
| Titles.BaseTitleEmpty | app.py:20-21 | the base title is empty exactly when the message is all whitespace |
| Titles.BaseTitleIdempotent | app.py:20-21 | generating a base title from a base title returns it unchanged |
| Titles.NumberedInjective | app.py:27-30 | `f"{base} ({n})"` determines n: different counters never produce the same title |
| Titles.LeastFreeTitleUnique | app.py:22-31 | at most one title is the base title when free, else the least free numbered variant, so the generator's answer is determined |
| Titles.NumberingExample | app.py:26-31 | with `"Hello there"` and `"Hello there (2)"` taken, the title chosen is `"Hello there (3)"` |
| ChatApp.Session.GenerateUniqueThreadTitle | app.py:18-31 | the returned title is not among the existing titles; it is the base title if that is free, otherwise base + " (n)" for the least n ≥ 2 whose title is free |
| ChatApp.Session.AddThread | app.py:33-38 | a known id changes nothing (no title overwrite, no save); a new id is appended, titled and upserted in the store; no duplicates, every listed id has a title, placeholder registration keeps titles distinct |
| ChatApp.Session.ResetChat | app.py:40-45 | history becomes empty, the fresh id becomes current and is registered as "New Chat" when new; the session invariant and title distinctness are kept |
| ChatApp.Session.ClearCurrentChat | app.py:169-171 | history becomes empty and only the current id's `stategraph` row is deleted; threads, titles and the `threads` table are unchanged |
| ChatApp.Session.OpenThread | app.py:178-184 | the chosen listed thread becomes current and the history is the conversion of its checkpointed messages |
| ChatApp.Session.RetitleFromFirstMessage | app.py:207-211 | a placeholder title ("New Chat" or "") of the current thread is replaced by the least free title and saved to the store; any other title leaves titles and the table unchanged; the session invariant and title distinctness are kept |
| ChatApp.PlaceholderKeepsDistinct | app.py:33-38 | registering a new thread under a placeholder title keeps non-placeholder titles distinct |
| ChatApp.FreshTitleKeepsDistinct | app.py:208-210 | giving a thread a title that no thread uses keeps non-placeholder titles distinct |
| ChatApp.Session.SubmitUserInput | app.py:201-229 | a non-empty message appends the user and assistant entries; a placeholder title ("New Chat" or "") is replaced by the least free title and saved; any other title leaves titles and the table unchanged; title distinctness is kept |
| ChatApp.Session.Start | app.py:50-62 | the first run starts with empty history, the store's threads and titles, and the fresh id registered as "New Chat"; the session invariant holds, and titles start distinct when the stored titles were |
| ChatApp.ToDisplayHistory | app.py:181-184 | conversion keeps length, order and content; the role is user exactly for a `HumanMessage`, and AI and tool messages become assistant |
| ChatApp.ToDisplayHistoryAppend | app.py:181-184 | converting a concatenation of conversations concatenates their conversions |
| ChatBackend.Calculator | langgraph_database_backend.py:37-52 | success exactly for add/sub/mul/div with a defined result, echoing the inputs and giving a result that inverts correctly; an unknown operation yields exactly `unsupported operation <op>`; division by zero yields an error payload instead of raising |
| ChatBackend.ChatDatabase.Load | langgraph_database_backend.py:159-221 | whatever the database held, both tables are empty once the module has loaded: `init_db` (159-177) keeps the stored rows, then the import-time `clear_all_chats()` (221, body 213-220) deletes them all |
| ChatBackend.ChatDatabase.SaveThreadTitle | langgraph_database_backend.py:179-188 | upsert: afterwards the id maps to the new title, all other ids are unchanged and `stategraph` is untouched; saving again overwrites |
| ChatBackend.ChatDatabase.FetchThreadRows | langgraph_database_backend.py:193-194 | the SELECT yields every row of `threads` exactly once, in an unspecified order |
| ChatBackend.ChatDatabase.GetAllThreadTitles | langgraph_database_backend.py:190-196 | `dict(rows)` is exactly the `threads` table |
| ChatBackend.ChatDatabase.RetrieveAllThreads | langgraph_database_backend.py:198-204 | the ids returned are exactly the keys of `threads`, each once, in no promised order |
| ChatBackend.ChatDatabase.ClearChat | langgraph_database_backend.py:206-211 | only the given id is removed from `stategraph`; `threads` and every other `stategraph` row are unchanged |
| ChatBackend.ChatDatabase.ClearAllChats | langgraph_database_backend.py:213-221 | both tables become empty |

## Left out

- The LangGraph agent loop (`chat_node`, `ToolNode`, `tools_condition`, `add_messages`, `SqliteSaver`, `graph.compile`). Its behaviour lives in libraries that are not part of this model, and the model call is nondeterministic.
- The network and clock tools (`get_stock_price`, `get_weather`, `find_local_events`, `get_news`, the DuckDuckGo search, `get_current_datetime`). They are HTTP or clock I/O.
- ChatBackend.Calculator: uses exact `real` arithmetic, so floating-point rounding, overflow, infinities and NaN are not modelled. The division-by-zero message is taken to be Python's `"float division by zero"` for float arguments.
- SQLite connection handling (connect, commit, close) is not modelled; each table function is one atomic update of the maps.
- `clear_chat` is modelled literally as deleting a `stategraph` row. Nothing in the code writes `stategraph`, and the checkpointer keeps conversations in its own tables, so the model does not claim that clearing erases the conversation messages.
- `load_conversation` (`chatbot.get_state`) is a library call. Its messages are a parameter of `OpenThread`.
- The streamed assistant reply (`chatbot.stream`, `st.write_stream`) is a parameter of `SubmitUserInput`. The checkpoint that the stream writes is not modelled.
- `uuid.uuid4()` is replaced by a fresh id passed as a parameter to `Session.Start` and `ResetChat`.
- The Streamlit UI is not modelled: CSS, markdown bubbles, sidebar rendering with its reversed list and `.get(thread, "New Chat")` labels, the spinner and buttons. Each button press is modelled as a call of the matching method.
- Titles.BaseTitleWords: `str.capitalize()` and `str.lower()` are modelled on ASCII letters only; other letters keep their case, whereas Python maps them with Unicode rules.
- ChatApp.Session: no other browser session writes the `threads` or `stategraph` tables while this one runs, although in the application they are shared by every session of the process. So `Start` reading the thread ids and then the titles sees one table state, and generated titles are unique only among the session's own `thread_titles`, not among titles that other sessions save later.
- ChatApp.Session.Start: the four `if ... not in st.session_state` checks are modelled as one first run in which all four keys are missing, which is how a new browser session starts.
