/** The ingestion script: read the knowledge-base files in order, cut their
    joined text into one document per line, embed the documents and keep the
    vectors and the documents together as one store. */
module Ingest {
  import opened Text

  /** The knowledge-base files, in the order they are read. */
  const KnowledgeBaseFiles: seq<string> :=
    ["data/platform_kb.txt", "data/artist_kb.txt", "data/customer_kb.txt"]

  /** Reads every listed file in list order, appending its contents.
      `read(path)` stands for what reading the file in text mode as UTF-8
      returns: the decoded text, with every CR LF and lone CR already
      turned into a newline. */
  method ReadTexts(files: seq<string>, read: string -> string) returns (texts: seq<string>)
    ensures |texts| == |files|
    ensures forall i :: 0 <= i < |files| ==> texts[i] == read(files[i])
  {
    texts := [];
    for i := 0 to |files|
      invariant |texts| == i
      invariant forall j :: 0 <= j < i ==> texts[j] == read(files[j])
    {
      texts := texts + [read(files[i])];
    }
  }

  /** The documents: the file contents joined with newlines and split into
      lines. A document's position in the list is its id. */
  function Chunk(texts: seq<string>): (documents: seq<string>)
    ensures |documents| == NewlineCount(Join(texts)) + 1
    ensures NoNewlines(documents)
  {
    Split(Join(texts))
  }

  /** The documents, rejoined with newlines, are exactly the joined contents. */
  lemma ChunkRoundTrip(texts: seq<string>)
    ensures Join(Chunk(texts)) == Join(texts)
  {
    JoinSplit(Join(texts));
  }

  /** There is at least one document per file, and never none. */
  lemma ChunkAtLeastOnePerFile(texts: seq<string>)
    ensures |Chunk(texts)| >= |texts|
    ensures |Chunk(texts)| >= 1
  {
    JoinNewlineCount(texts);
  }

  /** The three knowledge-base files give at least three documents. */
  lemma KnowledgeBaseDocumentCount(texts: seq<string>)
    requires |texts| == |KnowledgeBaseFiles|
    ensures |Chunk(texts)| >= 3
  {
    ChunkAtLeastOnePerFile(texts);
  }

  /** Empty input is not dropped: it gives a single empty document. */
  lemma ChunkOfNothing()
    ensures Chunk([]) == [""]
    ensures Chunk([""]) == [""]
  {
  }

  /** Blank lines and empty files are kept as empty documents. */
  lemma ChunkKeepsBlanks()
    ensures Chunk(["a\n", "", "b"]) == ["a", "", "", "b"]
  {
    assert Join(["a\n", "", "b"]) == "a" + "\n\n" + ("" + "\n" + "b");
    SplitBlankLine("a", "" + "\n" + "b");
    SplitAppend("", "b");
    SplitSingle("a");
    SplitSingle("b");
  }

  /** The lines of each file, file after file. */
  function PerFile(texts: seq<string>): seq<string>
  {
    if texts == [] then [] else Split(texts[0]) + PerFile(texts[1..])
  }

  lemma {:induction false} PerFileAppend(a: seq<string>, b: seq<string>)
    ensures PerFile(a + b) == PerFile(a) + PerFile(b)
  {
    if a == [] {
      assert a + b == b;
    } else {
      assert (a + b)[0] == a[0] && (a + b)[1..] == a[1..] + b;
      PerFileAppend(a[1..], b);
    }
  }

  /** The documents are the lines of the first file, then those of the
      second, and so on. */
  lemma {:induction false} ChunkByFile(texts: seq<string>)
    requires |texts| >= 1
    ensures Chunk(texts) == PerFile(texts)
  {
    if |texts| == 1 {
      assert texts[1..] == [];
    } else {
      ChunkByFile(texts[1..]);
      SplitAppend(texts[0], Join(texts[1..]));
    }
  }

  /** Id of the first document of file `i`. */
  function FileStart(texts: seq<string>, i: nat): nat
    requires i <= |texts|
  {
    |PerFile(texts[..i])|
  }

  /** The documents of file `i` sit, in their own order, at ids
      `FileStart(texts, i)` onward. */
  lemma FileDocuments(texts: seq<string>, i: nat)
    requires i < |texts|
    ensures FileStart(texts, i) + |Split(texts[i])| <= |Chunk(texts)|
    ensures Chunk(texts)[FileStart(texts, i)..FileStart(texts, i) + |Split(texts[i])|] == Split(texts[i])
  {
    ChunkByFile(texts);
    assert texts == texts[..i] + ([texts[i]] + texts[i + 1..]);
    PerFileAppend(texts[..i], [texts[i]] + texts[i + 1..]);
    assert ([texts[i]] + texts[i + 1..])[1..] == texts[i + 1..];
  }

  /** Every document of file `i` comes before every document of a later file `j`. */
  lemma FilesInOrder(texts: seq<string>, i: nat, j: nat)
    requires i < j <= |texts|
    ensures FileStart(texts, i) + |Split(texts[i])| <= FileStart(texts, j)
  {
    assert texts[..j] == texts[..i] + ([texts[i]] + texts[i + 1..j]);
    PerFileAppend(texts[..i], [texts[i]] + texts[i + 1..j]);
    assert ([texts[i]] + texts[i + 1..j])[1..] == texts[i + 1..j];
  }

  /** A file ending in a newline leaves an empty document just before the
      first document of the next file. */
  lemma TrailingNewlineBlank(texts: seq<string>, i: nat)
    requires i + 1 < |texts|
    requires |texts[i]| > 0 && texts[i][|texts[i]| - 1] == '\n'
    ensures 1 <= FileStart(texts, i + 1) <= |Chunk(texts)|
    ensures Chunk(texts)[FileStart(texts, i + 1) - 1] == ""
  {
    FileDocuments(texts, i);
    SplitEndsBlank(texts[i]);
    assert texts[..i + 1] == texts[..i] + [texts[i]];
    PerFileAppend(texts[..i], [texts[i]]);
    assert [texts[i]][1..] == [];
    var start, lines := FileStart(texts, i), Split(texts[i]);
    assert FileStart(texts, i + 1) == start + |lines|;
    assert Chunk(texts)[start + |lines| - 1] == lines[|lines| - 1];
  }

  /** What the script keeps: the vectors added to the index, position by
      position, and the document list written beside it. */
  datatype VectorStore<V> = VectorStore(vectors: seq<V>, documents: seq<string>)

  /** The embedder's contract: one vector per input text. */
  ghost predicate OneVectorPerText<V>(embed: seq<string> -> seq<V>)
  {
    forall ts :: |embed(ts)| == |ts|
  }

  /** Reads the files, chunks them, embeds the documents and builds the
      store. The list that is embedded is the list that is kept, so vector i
      describes document i. */
  method Ingest<V>(files: seq<string>, read: string -> string, embed: seq<string> -> seq<V>)
    returns (texts: seq<string>, store: VectorStore<V>)
    requires OneVectorPerText(embed)
    ensures |texts| == |files|
    ensures forall i :: 0 <= i < |files| ==> texts[i] == read(files[i])
    ensures store.documents == Chunk(texts)
    ensures store.vectors == embed(store.documents)
    ensures |store.vectors| == |store.documents| >= |files|
  {
    texts := ReadTexts(files, read);
    var documents := Chunk(texts);
    ChunkAtLeastOnePerFile(texts);
    var embeddings := embed(documents);
    store := VectorStore(embeddings, documents);
  }
}
