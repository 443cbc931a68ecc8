/** The chat page: the context looked up for a query, the conversation kept in
    the session, the history window and the prompt given to the language
    model, and the booking link. */
module Chatbot {
  import opened Text
  import Ingest

  // Context assembly

  /** Every index the search returned names a stored document. */
  predicate HitsInRange(documents: seq<string>, hits: seq<int>)
  {
    forall k :: 0 <= k < |hits| ==> 0 <= hits[k] < |documents|
  }

  /** The texts of the documents at the returned indices, in search order:
      one text per index, a repeated index giving its text again. */
  function Lookup(documents: seq<string>, hits: seq<int>): (texts: seq<string>)
    requires HitsInRange(documents, hits)
    ensures |texts| == |hits|
    ensures forall k :: 0 <= k < |hits| ==> texts[k] == documents[hits[k]]
  {
    seq(|hits|, k requires 0 <= k < |hits| => documents[hits[k]])
  }

  /** The context placed in the prompt: the retrieved texts joined with
      newlines. The search itself is the parameter `hits`. */
  function RetrieveContext(documents: seq<string>, hits: seq<int>): (context: string)
    requires HitsInRange(documents, hits)
    ensures hits == [] ==> context == ""
    ensures NoNewlines(documents) && hits != [] ==> Split(context) == Lookup(documents, hits)
  {
    ContextSplitsBack(documents, hits);
    Join(Lookup(documents, hits))
  }

  /** Over newline-free documents and at least one index, splitting the
      joined texts gives back exactly the looked-up texts. */
  lemma ContextSplitsBack(documents: seq<string>, hits: seq<int>)
    requires HitsInRange(documents, hits)
    ensures NoNewlines(documents) && hits != [] ==>
      Split(Join(Lookup(documents, hits))) == Lookup(documents, hits)
  {
    if NoNewlines(documents) && hits != [] {
      SplitJoin(Lookup(documents, hits));
    }
  }

  /** Over newline-free documents the context holds exactly one line per
      returned index, the text of that document, in search order; a repeated
      index repeats its text. */
  lemma ContextLines(documents: seq<string>, hits: seq<int>)
    requires HitsInRange(documents, hits) && NoNewlines(documents)
    requires |hits| >= 1
    ensures |Split(RetrieveContext(documents, hits))| == |hits|
    ensures NewlineCount(RetrieveContext(documents, hits)) == |hits| - 1
    ensures forall k :: 0 <= k < |hits| ==> Split(RetrieveContext(documents, hits))[k] == documents[hits[k]]
  {
    SplitJoin(Lookup(documents, hits));
  }

  /** The documents the ingestion script produced have no newlines, so a
      context built from them splits back into the retrieved documents. */
  lemma ContextOverKnowledgeBase(texts: seq<string>, hits: seq<int>)
    requires HitsInRange(Ingest.Chunk(texts), hits) && |hits| >= 1
    ensures |Split(RetrieveContext(Ingest.Chunk(texts), hits))| == |hits|
    ensures forall k :: 0 <= k < |hits| ==>
      Split(RetrieveContext(Ingest.Chunk(texts), hits))[k] == Ingest.Chunk(texts)[hits[k]]
  {
    ContextLines(Ingest.Chunk(texts), hits);
  }

  /** With no indices there is no context at all. */
  lemma ContextOfNoHits(documents: seq<string>)
    ensures RetrieveContext(documents, []) == ""
  {
  }

  /** The context is made of the retrieved texts and nothing else: joining
      one document less and appending it in turn extends the context by a
      newline and that document. */
  lemma ContextAppend(documents: seq<string>, hits: seq<int>, h: int)
    requires HitsInRange(documents, hits) && 0 <= h < |documents|
    requires |hits| >= 1
    ensures HitsInRange(documents, hits + [h])
    ensures RetrieveContext(documents, hits + [h]) == RetrieveContext(documents, hits) + "\n" + documents[h]
  {
    JoinSnoc(Lookup(documents, hits), documents[h]);
    assert Lookup(documents, hits + [h]) == Lookup(documents, hits) + [documents[h]];
  }

  lemma {:induction false} JoinSnoc(parts: seq<string>, p: string)
    requires |parts| >= 1
    ensures Join(parts + [p]) == Join(parts) + "\n" + p
  {
    if |parts| == 1 {
      assert (parts + [p])[1..] == [p];
    } else {
      assert (parts + [p])[1..] == parts[1..] + [p];
      JoinSnoc(parts[1..], p);
    }
  }

  // Conversation

  /** The two speakers of the conversation. */
  datatype Role = User | Assistant
  {
    /** The role as stored in a message. */
    function Name(): string
    {
      match this
      case User => "user"
      case Assistant => "assistant"
    }

    /** The role as printed in the history. */
    function Label(): string
    {
      match this
      case User => "USER"
      case Assistant => "ASSISTANT"
    }
  }

  /** The printed label is the upper-cased stored name. */
  lemma LabelIsUpperName(r: Role)
    ensures r.Label() == Upper(r.Name())
  {
    match r
    case User =>
      assert Upper("user") == "USER" by {
        assert Upper("user")[0] == 'U' && Upper("user")[1] == 'S';
        assert Upper("user")[2] == 'E' && Upper("user")[3] == 'R';
      }
    case Assistant =>
      var u := Upper("assistant");
      assert u == "ASSISTANT" by {
        assert u[0] == 'A' && u[1] == 'S' && u[2] == 'S' && u[3] == 'I' && u[4] == 'S';
        assert u[5] == 'T' && u[6] == 'A' && u[7] == 'N' && u[8] == 'T';
      }
  }

  datatype Message = Message(role: Role, content: string)

  /** The chooser at the top of the page: who the user is. */
  datatype UserRole = Customer | Artist
  {
    function Name(): string
    {
      match this
      case Customer => "Customer"
      case Artist => "Artist"
    }
  }

  /** A session's messages, as the turns leave them: user, assistant, user,
      assistant, and so on. */
  ghost predicate Alternating(messages: seq<Message>)
  {
    |messages| % 2 == 0 &&
    forall i :: 0 <= i < |messages| ==> messages[i].role == (if i % 2 == 0 then User else Assistant)
  }

  /** A turn keeps the messages alternating: it adds a user message and then
      an assistant message. */
  lemma TurnKeepsAlternating(messages: seq<Message>, input: string, answer: string)
    requires Alternating(messages)
    ensures Alternating(messages + [Message(User, input), Message(Assistant, answer)])
  {
    var n := |messages|;
    var after := messages + [Message(User, input), Message(Assistant, answer)];
    forall i | 0 <= i < |after|
      ensures after[i].role == (if i % 2 == 0 then User else Assistant)
    {
      if i < n {
        assert after[i] == messages[i];
      } else if i == n {
        assert n % 2 == 0;
      } else {
        assert i == n + 1;
      }
    }
  }

  /** In an alternating list every user message is directly followed by an
      assistant message. */
  lemma EveryQuestionAnswered(messages: seq<Message>, i: nat)
    requires Alternating(messages)
    requires i < |messages| && messages[i].role == User
    ensures i + 1 < |messages| && messages[i + 1].role == Assistant
  {
    assert i % 2 == 0;
  }

  // History

  /** How many of the latest messages the history shows. */
  const HistorySize: nat := 6

  function Min(a: int, b: int): int { if a <= b then a else b }

  /** `messages[-6:]`: the latest messages, at most six, in their order. */
  function Window(messages: seq<Message>): (recent: seq<Message>)
    ensures |recent| == Min(HistorySize, |messages|)
    ensures recent == messages[|messages| - |recent|..]
  {
    if |messages| <= HistorySize then messages else messages[|messages| - HistorySize..]
  }

  /** One history line: upper-cased role, a colon and a space, the content. */
  function HistoryLine(m: Message): string
  {
    m.role.Label() + ": " + m.content + "\n"
  }

  /** The lines of `messages`, first to last. */
  function HistoryText(messages: seq<Message>): string
  {
    if messages == [] then "" else HistoryLine(messages[0]) + HistoryText(messages[1..])
  }

  /** Builds the history of the latest messages line by line. */
  method BuildHistory(messages: seq<Message>) returns (history: string)
    ensures history == HistoryText(Window(messages))
  {
    var start := if |messages| > HistorySize then |messages| - HistorySize else 0;
    var recent := messages[start..];
    history := "";
    for i := 0 to |recent|
      invariant history == HistoryText(recent[..i])
    {
      assert recent[..i + 1] == recent[..i] + [recent[i]];
      HistoryAppend(recent[..i], [recent[i]]);
      assert [recent[i]][1..] == [];
      history := history + HistoryLine(recent[i]);
    }
    assert recent[..|recent|] == recent;
  }

  /** The history of consecutive stretches is the concatenation of theirs. */
  lemma {:induction false} HistoryAppend(a: seq<Message>, b: seq<Message>)
    ensures HistoryText(a + b) == HistoryText(a) + HistoryText(b)
  {
    if a == [] {
      assert a + b == b;
    } else {
      assert (a + b)[0] == a[0] && (a + b)[1..] == a[1..] + b;
      HistoryAppend(a[1..], b);
    }
  }

  /** The history is empty exactly when there are no messages. */
  lemma HistoryEmptyIff(messages: seq<Message>)
    ensures HistoryText(messages) == "" <==> messages == []
  {
    if messages != [] {
      assert |HistoryLine(messages[0])| > 0;
    }
  }

  /** The message just appended is the last line of the history, after the
      lines of up to five messages before it. */
  lemma LatestMessageInHistory(messages: seq<Message>, m: Message)
    ensures Window(messages + [m]) == messages[|messages| - Min(HistorySize - 1, |messages|)..] + [m]
    ensures HistoryText(Window(messages + [m]))
         == HistoryText(messages[|messages| - Min(HistorySize - 1, |messages|)..]) + HistoryLine(m)
  {
    var before := messages[|messages| - Min(HistorySize - 1, |messages|)..];
    assert (messages + [m])[|messages + [m]| - Min(HistorySize, |messages| + 1)..] == before + [m];
    HistoryAppend(before, [m]);
    assert [m][..0] == [];
  }

  // Prompt

  const PromptIntro: string := "\nYou are MuseApp's AI assistant.\n\nUser role: "
  const PromptGuidance: string :=
    "\n\nBe friendly, conversational, and concise.\nRemember previous messages.\nIf unsure, ask a clarifying question.\n\nKnowledge Base:\n"
  const PromptConversation: string := "\n\nConversation so far:\n"
  const PromptClosing: string := "\n\nNow answer the user's latest message.\n"

  /** Where the user's role starts in the prompt. */
  function RoleAt(): nat { |PromptIntro| }

  /** Where the context starts in the prompt. */
  function ContextAt(role: string): nat { RoleAt() + |role| + |PromptGuidance| }

  /** Where the history starts in the prompt. */
  function HistoryAt(role: string, context: string): nat
  {
    ContextAt(role) + |context| + |PromptConversation|
  }

  /** The part of `p` at `|pre|` onward, of the length of `y`, is `y` when
      `p` starts with `pre + y`. */
  lemma Piece(p: string, pre: string, y: string)
    requires |pre| + |y| <= |p| && p[..|pre| + |y|] == pre + y
    ensures p[|pre|..|pre| + |y|] == y
  {
  }

  /** Each of seven texts can be read back from their concatenation at the
      sum of the lengths before it. */
  lemma Layout(t1: string, t2: string, t3: string, t4: string, t5: string, t6: string, t7: string)
    ensures var p := t1 + t2 + t3 + t4 + t5 + t6 + t7;
      var o2 := |t1|; var o3 := o2 + |t2|; var o4 := o3 + |t3|;
      var o5 := o4 + |t4|; var o6 := o5 + |t5|; var o7 := o6 + |t6|;
      && |p| == o7 + |t7|
      && p[..o2] == t1 && p[o2..o3] == t2 && p[o3..o4] == t3 && p[o4..o5] == t4
      && p[o5..o6] == t5 && p[o6..o7] == t6 && p[o7..] == t7
  {
    var p2 := t1 + t2;
    var p3 := p2 + t3;
    var p4 := p3 + t4;
    var p5 := p4 + t5;
    var p6 := p5 + t6;
    var p := p6 + t7;
    assert p[..|p2|] == p2;
    assert p[..|p3|] == p3;
    assert p[..|p4|] == p4;
    assert p[..|p5|] == p5;
    assert p[..|p6|] == p6;
    Piece(p, t1, t2);
    Piece(p, p2, t3);
    Piece(p, p3, t4);
    Piece(p, p4, t5);
    Piece(p, p5, t6);
  }

  /** The prompt: the fixed instructions with the role, then the context,
      then the history, each in its own place and each whole. */
  function Prompt(role: string, context: string, history: string): (p: string)
    ensures |p| == HistoryAt(role, context) + |history| + |PromptClosing|
    ensures p[..RoleAt()] == PromptIntro
    ensures p[RoleAt()..RoleAt() + |role|] == role
    ensures p[RoleAt() + |role|..ContextAt(role)] == PromptGuidance
    ensures p[ContextAt(role)..ContextAt(role) + |context|] == context
    ensures p[ContextAt(role) + |context|..HistoryAt(role, context)] == PromptConversation
    ensures p[HistoryAt(role, context)..HistoryAt(role, context) + |history|] == history
    ensures p[HistoryAt(role, context) + |history|..] == PromptClosing
  {
    Layout(PromptIntro, role, PromptGuidance, context, PromptConversation, history, PromptClosing);
    PromptIntro + role + PromptGuidance + context + PromptConversation + history + PromptClosing
  }

  // Booking link

  const BookingUrl: string := "https://museapp.com/book/artist123"

  /** Whether the booking link is shown for `input`: its lower-cased form
      contains "book". */
  predicate MentionsBooking(input: string)
  {
    Contains(Lower(input), "book")
  }

  /** The link is shown exactly when "book", in any mix of cases, occurs
      somewhere in the input; changing the input's case changes nothing. */
  lemma BookingIgnoresCase(input: string)
    ensures MentionsBooking(input) <==> exists i :: OccursAt(Lower(input), "book", i)
    ensures MentionsBooking(Upper(input)) == MentionsBooking(input)
    ensures MentionsBooking(Lower(input)) == MentionsBooking(input)
  {
    ContainsIff(Lower(input), "book");
    LowerForgetsCase(input);
  }

  /** Any input that contains "book" as it stands shows the link, whatever
      surrounds it ("notebook", "booking"). */
  lemma BookingWhenContained(input: string)
    requires Contains(input, "book")
    ensures MentionsBooking(input)
  {
    ContainsIff(input, "book");
    var i :| OccursAt(input, "book", i);
    assert Lower(input)[i..i + 4] == input[i..i + 4];
    assert OccursAt(Lower(input), "book", i);
    ContainsIff(Lower(input), "book");
  }

  /** "book" inside a longer word also triggers the link. */
  lemma BookingInsideWord()
    ensures MentionsBooking("My NoteBook")
    ensures !MentionsBooking("Hello")
  {
    var s := Lower("My NoteBook");
    assert s[7..11] == "book";
    assert OccursAt(s, "book", 7);
    ContainsIff(s, "book");
    var h := Lower("Hello");
    assert h == "hello" by {
      assert h[0] == 'h' && h[1] == 'e' && h[2] == 'l' && h[3] == 'l' && h[4] == 'o';
    }
  }

  // Session

  /** The browser session: the list of messages kept across turns. */
  class Session {
    var messages: seq<Message>

    /** Messages alternate between the user and the assistant, so, by
        `EveryQuestionAnswered`, each user message is directly followed by an
        assistant message. */
    ghost predicate Valid()
      reads this
    {
      Alternating(messages)
    }

    constructor ()
      ensures Valid() && messages == []
    {
      messages := [];
    }

    /** One turn of the page for a submitted input. An empty input changes
        nothing. Otherwise the user's message is appended, the context is
        looked up at the indices `hits` the search returned for the input,
        the history of the latest messages (the user's one included) and the
        prompt are built, the reply the model gives for the prompt is
        appended, and the booking link is shown when the input mentions it. */
    method Turn(input: string, role: UserRole, documents: seq<string>, hits: seq<int>,
                reply: string -> string)
      returns (prompt: string, answer: string, showBooking: bool)
      requires Valid()
      requires HitsInRange(documents, hits)
      modifies this
      ensures Valid()
      ensures input == "" ==> messages == old(messages) && !showBooking
      ensures input != "" ==>
        var asked := old(messages) + [Message(User, input)];
        && prompt == Prompt(role.Name(), RetrieveContext(documents, hits), HistoryText(Window(asked)))
        && answer == reply(prompt)
        && messages == asked + [Message(Assistant, answer)]
        && showBooking == MentionsBooking(input)
    {
      prompt, answer, showBooking := "", "", false;
      if input != "" {
        ghost var before := messages;
        messages := messages + [Message(User, input)];
        var context := RetrieveContext(documents, hits);
        var history := BuildHistory(messages);
        prompt := Prompt(role.Name(), context, history);
        answer := reply(prompt);
        messages := messages + [Message(Assistant, answer)];
        showBooking := MentionsBooking(input);
        TurnKeepsAlternating(before, input, answer);
        assert messages == before + [Message(User, input), Message(Assistant, answer)];
      }
    }
  }
}
