/**
 * The chat application's session bookkeeping (app.py), with Streamlit's
 * `st.session_state` made an explicit object: the current thread, the
 * displayed history, the list of known threads and their titles, and the
 * backend store every title change is saved to.
 */
module ChatApp {
  import opened Text
  import opened Titles
  import opened ChatBackend

  /** A checkpointed conversation message, by its LangChain class. */
  datatype Message =
    | HumanMessage(content: string)
    | AIMessage(content: string)
    | ToolMessage(content: string)

  datatype Role = User | Assistant

  /** An entry of `message_history`: `{'role': ..., 'content': ...}`. */
  datatype DisplayEntry = DisplayEntry(role: Role, content: string)

  /** The history shown for a reopened thread: one entry per message, in order, human messages as the user's. */
  function ToDisplayHistory(messages: seq<Message>): (history: seq<DisplayEntry>)
    ensures |history| == |messages|
    ensures forall i :: 0 <= i < |messages| ==>
      history[i].content == messages[i].content
      && (history[i].role == User <==> messages[i].HumanMessage?)
  {
    if messages == [] then []
    else
      [DisplayEntry(if messages[0].HumanMessage? then User else Assistant, messages[0].content)]
        + ToDisplayHistory(messages[1..])
  }

  /** Converting a longer conversation converts its parts and concatenates them. */
  lemma {:induction false} ToDisplayHistoryAppend(earlier: seq<Message>, later: seq<Message>)
    ensures ToDisplayHistory(earlier + later) == ToDisplayHistory(earlier) + ToDisplayHistory(later)
  {
    if earlier != [] {
      assert (earlier + later)[1..] == earlier[1..] + later;
      ToDisplayHistoryAppend(earlier[1..], later);
    } else {
      assert earlier + later == later;
    }
  }

  /** No two threads share a title other than a placeholder. */
  ghost predicate DistinctTitles(titles: map<string, string>) {
    forall a, b :: a in titles && b in titles && a != b && !IsPlaceholder(titles[a])
      ==> titles[a] != titles[b]
  }

  /** Registering a thread under a placeholder title keeps the other titles distinct. */
  lemma {:induction false} PlaceholderKeepsDistinct(titles: map<string, string>, id: string, title: string)
    requires DistinctTitles(titles) && id !in titles && IsPlaceholder(title)
    ensures DistinctTitles(titles[id := title])
  {
    var t := titles[id := title];
    forall a, b | a in t && b in t && a != b && !IsPlaceholder(t[a])
      ensures t[a] != t[b]
    {
      assert a != id;
      if b == id {
        assert t[b] == title;
      } else {
        assert t[a] == titles[a] && t[b] == titles[b];
      }
    }
  }

  /** Giving a thread a title no thread uses keeps the titles distinct. */
  lemma {:induction false} FreshTitleKeepsDistinct(titles: map<string, string>, id: string, title: string)
    requires DistinctTitles(titles) && title !in titles.Values
    ensures DistinctTitles(titles[id := title])
  {
    var t := titles[id := title];
    forall a, b | a in t && b in t && a != b && !IsPlaceholder(t[a])
      ensures t[a] != t[b]
    {
      if a == id {
        assert b in titles && t[b] == titles[b];
        assert titles[b] in titles.Values;
      } else if b == id {
        assert a in titles && t[a] == titles[a];
        assert titles[a] in titles.Values;
      } else {
        assert t[a] == titles[a] && t[b] == titles[b];
      }
    }
  }

  /** `titles.get(id, "New Chat")`. */
  function TitleIn(titles: map<string, string>, id: string): string {
    if id in titles then titles[id] else DefaultTitle
  }

  /**
   * The retitling rule's effect, from the titles and `threads` table before
   * (`titles0`, `table0`) to those after. When thread `id` still has a
   * placeholder title, it gets the least free title for `userInput`, which no
   * thread used before, and that title is saved under `id`. Otherwise
   * nothing changes.
   */
  ghost predicate Retitled(userInput: string, id: string,
                           titles0: map<string, string>, table0: map<string, string>,
                           titles: map<string, string>, table: map<string, string>)
  {
    if IsPlaceholder(TitleIn(titles0, id)) then
      && id in titles
      && titles == titles0[id := titles[id]]
      && table == table0[id := titles[id]]
      && titles[id] !in titles0.Values
      && IsLeastFreeTitle(BaseTitle(userInput), titles0.Values, titles[id])
    else
      titles == titles0 && table == table0
  }

  class Session {
    var messageHistory: seq<DisplayEntry>
    var threadId: string
    var chatThreads: seq<string>
    var threadTitles: map<string, string>
    /** The backend whose table functions the application calls. */
    const store: ChatDatabase

    /** The thread list has no repeats and names exactly the threads that have a title. */
    ghost predicate Registered()
      reads this
    {
      NoDuplicates(chatThreads) && forall id :: id in chatThreads <==> id in threadTitles
    }

    ghost predicate Valid()
      reads this
    {
      Registered() && threadId in chatThreads
    }

    ghost predicate TitlesDistinct()
      reads this
    {
      DistinctTitles(threadTitles)
    }

    function TitleOf(id: string): string
      reads this
    {
      TitleIn(threadTitles, id)
    }

    /**
     * The first run of the script in a browser session: empty history, a
     * fresh thread id, the thread list and titles read from the store, then
     * the fresh thread registered as "New Chat".
     */
    constructor Start(db: ChatDatabase, freshId: string)
      modifies db`threads
      ensures store == db && Valid()
      ensures messageHistory == [] && threadId == freshId
      ensures freshId in old(db.threads) ==> threadTitles == old(db.threads) && db.threads == old(db.threads)
      ensures freshId !in old(db.threads) ==>
        && threadTitles == old(db.threads)[freshId := DefaultTitle]
        && db.threads == old(db.threads)[freshId := DefaultTitle]
        && chatThreads[|chatThreads| - 1] == freshId
      ensures DistinctTitles(old(db.threads)) ==> TitlesDistinct()
    {
      var ids := db.RetrieveAllThreads();
      var titles := db.GetAllThreadTitles();
      store := db;
      messageHistory := [];
      threadId := freshId;
      chatThreads := ids;
      threadTitles := titles;
      new;
      AddThread(threadId, DefaultTitle);
    }

    /**
     * The title for a thread whose first message is `userMessage`: the base
     * title if no thread uses it, else the base title numbered with the least
     * n >= 2 that no thread uses.
     */
    method GenerateUniqueThreadTitle(userMessage: string) returns (title: string)
      ensures title !in threadTitles.Values
      ensures IsLeastFreeTitle(BaseTitle(userMessage), threadTitles.Values, title)
    {
      var baseTitle := BaseTitle(userMessage);
      var existingTitles := threadTitles.Values;
      if baseTitle !in existingTitles {
        return baseTitle;
      }
      var counter := 2;
      var newTitle := Numbered(baseTitle, counter);
      ghost var tried := NumberedBelow(baseTitle, counter);
      while newTitle in existingTitles
        invariant 2 <= counter && newTitle == Numbered(baseTitle, counter)
        invariant tried == NumberedBelow(baseTitle, counter) && tried <= existingTitles
        decreases |existingTitles - tried|
      {
        NumberedBelowStep(baseTitle, existingTitles, counter);
        tried := tried + {newTitle};
        counter := counter + 1;
        newTitle := Numbered(baseTitle, counter);
      }
      LeastFreeNumbered(baseTitle, existingTitles, counter);
      title := newTitle;
    }

    /** Registers `id` with `title` unless it is already known; a known id is left exactly as it was. */
    method AddThread(id: string, title: string)
      requires Registered()
      modifies this`chatThreads, this`threadTitles, store`threads
      ensures Registered()
      ensures old(id in chatThreads) ==>
        chatThreads == old(chatThreads) && threadTitles == old(threadTitles) && store.threads == old(store.threads)
      ensures old(id !in chatThreads) ==>
        && chatThreads == old(chatThreads) + [id]
        && threadTitles == old(threadTitles)[id := title]
        && store.threads == old(store.threads)[id := title]
      ensures old(TitlesDistinct()) && IsPlaceholder(title) ==> TitlesDistinct()
    {
      if id !in chatThreads {
        chatThreads := chatThreads + [id];
        if DistinctTitles(threadTitles) && IsPlaceholder(title) {
          PlaceholderKeepsDistinct(threadTitles, id, title);
        }
        threadTitles := threadTitles[id := title];
        store.SaveThreadTitle(id, title);
      }
    }

    /** "New Chat": start the fresh thread `freshId` with an empty history. */
    method ResetChat(freshId: string)
      requires Valid()
      modifies this`messageHistory, this`threadId, this`chatThreads, this`threadTitles, store`threads
      ensures Valid()
      ensures messageHistory == [] && threadId == freshId
      ensures old(freshId in chatThreads) ==>
        chatThreads == old(chatThreads) && threadTitles == old(threadTitles) && store.threads == old(store.threads)
      ensures old(freshId !in chatThreads) ==>
        && chatThreads == old(chatThreads) + [freshId]
        && threadTitles == old(threadTitles)[freshId := DefaultTitle]
        && store.threads == old(store.threads)[freshId := DefaultTitle]
      ensures old(TitlesDistinct()) ==> TitlesDistinct()
    {
      messageHistory := [];
      threadId := freshId;
      AddThread(freshId, DefaultTitle);
    }

    /** "Clear Chat": delete the current thread's `stategraph` row and empty the history; the thread and its title stay. */
    method ClearCurrentChat()
      requires Valid()
      modifies this`messageHistory, store`stategraph
      ensures Valid()
      ensures messageHistory == []
      ensures store.stategraph == old(store.stategraph) - {threadId}
      ensures store.threads == old(store.threads)
    {
      store.ClearChat(threadId);
      messageHistory := [];
    }

    /** Choosing a thread in the sidebar: it becomes current and its checkpointed `messages` are shown. */
    method OpenThread(id: string, messages: seq<Message>)
      requires Valid() && id in chatThreads
      modifies this`threadId, this`messageHistory
      ensures Valid()
      ensures threadId == id && messageHistory == ToDisplayHistory(messages)
    {
      threadId := id;
      messageHistory := ToDisplayHistory(messages);
    }

    /**
     * The retitling rule: a thread whose title is still a placeholder is
     * renamed after the message just submitted, and the new title is saved.
     */
    method RetitleFromFirstMessage(userInput: string)
      requires Valid()
      modifies this`threadTitles, store`threads
      ensures Valid()
      ensures Retitled(userInput, threadId, old(threadTitles), old(store.threads), threadTitles, store.threads)
      ensures old(TitlesDistinct()) ==> TitlesDistinct()
    {
      var id := threadId;
      if IsPlaceholder(TitleOf(id)) {
        var title := GenerateUniqueThreadTitle(userInput);
        if DistinctTitles(threadTitles) {
          FreshTitleKeepsDistinct(threadTitles, id, title);
        }
        threadTitles := threadTitles[id := title];
        store.SaveThreadTitle(id, title);
      }
    }

    /**
     * A submitted message: it is shown, the thread is retitled from it when
     * its title is still a placeholder, and the assistant's `reply` is shown.
     */
    method SubmitUserInput(userInput: string, reply: string)
      requires Valid()
      modifies this`messageHistory, this`threadTitles, store`threads
      ensures Valid()
      ensures userInput == [] ==> messageHistory == old(messageHistory)
      ensures userInput != [] ==>
        messageHistory == old(messageHistory) + [DisplayEntry(User, userInput), DisplayEntry(Assistant, reply)]
      ensures userInput != [] ==>
        Retitled(userInput, threadId, old(threadTitles), old(store.threads), threadTitles, store.threads)
      ensures userInput == [] ==> threadTitles == old(threadTitles) && store.threads == old(store.threads)
      ensures old(TitlesDistinct()) ==> TitlesDistinct()
    {
      if userInput != [] {
        ghost var shown := messageHistory;
        messageHistory := messageHistory + [DisplayEntry(User, userInput)];
        RetitleFromFirstMessage(userInput);
        messageHistory := messageHistory + [DisplayEntry(Assistant, reply)];
        assert messageHistory == shown + [DisplayEntry(User, userInput), DisplayEntry(Assistant, reply)];
      }
    }
  }
}
