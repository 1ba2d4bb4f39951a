/** The record builder shared by the two PubMed loaders,
    code/SetRank/index_data_TREC.py and code/baselines/TREC-BIO/index_data.py:
    each input paper becomes one indexed record holding its word counts, its
    author list, its MeSH heading and its PubTator entity mentions split by
    where they were found; the loop keeps running sums of the lengths and
    sends the records in bulk. The two files differ only in the index and
    type names. */
module TrecLoader {
  import opened Seqs
  import opened Text
  import opened Bulk

  /** One PubTator annotation: the entity's surface name and the field it
      was found in. */
  datatype Entity = Entity(name: string, position: string)

  /** One paper of the merged input; `author` and `meshHeading` may be null. */
  datatype Paper = Paper(
    pmid: string, title: string, paperAbstract: string, date: string,
    author: Option<string>, journal: string, meshHeading: Option<string>,
    entities: seq<Entity>)

  /** The indexed `data_dict`. */
  datatype Record = Record(
    pmid: string, title: string, titleLength: nat, paperAbstract: string, abstractLength: nat,
    date: string, authorList: seq<string>, journalName: string, mesh: string,
    titleAna: string, abstractAna: string, titleAnaLength: nat, abstractAnaLength: nat,
    totalLength: nat)

  /** The author list: nothing for a null or empty author string, otherwise
      the pieces between semicolons. */
  function AuthorList(author: Option<string>): (authors: seq<string>)
    ensures authors == [] <==> author.None? || author.value == []
    ensures forall i :: 0 <= i < |authors| ==> ';' !in authors[i]
  {
    if author.None? || author.value == [] then [] else SplitOn(author.value, ';')
  }

  /** Joining the author list with semicolons gives back the author string. */
  lemma AuthorListRoundTrip(author: string)
    ensures Join(AuthorList(Some(author)), ";") == author
  {
    if author != [] {
      JoinSplitOn(author, ';');
    }
  }

  /** The MeSH heading: the empty string stands in for a null or empty
      heading, so a present heading is always kept as it is. */
  function Mesh(heading: Option<string>): (mesh: string)
    ensures heading.Some? ==> mesh == heading.value
    ensures heading.None? ==> mesh == []
  {
    match heading
    case None => ""
    case Some(h) => if h == [] then "" else h
  }

  /** An entity mention: the words of the name joined by underscores,
      lower-cased. A name with at least one word gives a single lower-case
      token; a blank name gives the empty string. */
  function Mention(name: string): (m: string)
    ensures Words(name) != [] ==> IsWord(m)
    ensures Words(name) == [] ==> m == []
    ensures forall i :: 0 <= i < |m| ==> !('A' <= m[i] <= 'Z')
  {
    var joined := Join(Words(name), "_");
    LowerProperties(joined);
    NameJoinIsWord(name);
    Lower(joined)
  }

  /** The words of a name that has any, joined by underscores, form one
      word. */
  lemma NameJoinIsWord(name: string)
    ensures Words(name) != [] ==> IsWord(Join(Words(name), "_"))
  {
    if Words(name) != [] {
      JoinIsWord(Words(name), "_");
    }
  }

  /** The mentions of the entities found in `position`, in input order. */
  function Mentions(entities: seq<Entity>, position: string): seq<string> {
    if |entities| == 0 then []
    else (if entities[0].position == position then [Mention(entities[0].name)] else [])
         + Mentions(entities[1..], position)
  }

  /** The number of entities found neither in the title nor in the abstract. */
  function Dropped(entities: seq<Entity>): nat {
    if |entities| == 0 then 0
    else (if entities[0].position in {"title", "abstract"} then 0 else 1) + Dropped(entities[1..])
  }

  /** Every entity lands in exactly one of the title mentions, the abstract
      mentions and the dropped ones. */
  lemma {:induction false} PartitionCounts(entities: seq<Entity>)
    ensures |Mentions(entities, "title")| + |Mentions(entities, "abstract")| + Dropped(entities) == |entities|
  {
    if |entities| > 0 {
      PartitionCounts(entities[1..]);
    }
  }

  /** Each mention is the mention of some entity found in `position`, and
      every such entity contributes one. */
  lemma {:induction false} MentionsFrom(entities: seq<Entity>, position: string, m: string)
    ensures m in Mentions(entities, position)
            <==> exists i :: 0 <= i < |entities| && entities[i].position == position && Mention(entities[i].name) == m
  {
    if |entities| > 0 {
      MentionsFrom(entities[1..], position, m);
      if m in Mentions(entities[1..], position) {
        var i :| 0 <= i < |entities[1..]| && entities[1..][i].position == position
                 && Mention(entities[1..][i].name) == m;
        assert entities[i + 1] == entities[1..][i];
      }
      forall i | 1 <= i < |entities| && entities[i].position == position && Mention(entities[i].name) == m
        ensures m in Mentions(entities[1..], position)
      {
        assert entities[1..][i - 1] == entities[i];
      }
    }
  }

  predicate NamedIn(entities: seq<Entity>, position: string) {
    forall i :: 0 <= i < |entities| && entities[i].position == position ==> Words(entities[i].name) != []
  }

  lemma {:induction false} MentionsAreWords(entities: seq<Entity>, position: string)
    requires NamedIn(entities, position)
    ensures forall i :: 0 <= i < |Mentions(entities, position)| ==> IsWord(Mentions(entities, position)[i])
  {
    if |entities| > 0 {
      assert NamedIn(entities[1..], position) by {
        forall i | 0 <= i < |entities[1..]| ensures entities[1..][i] == entities[i + 1] { }
      }
      MentionsAreWords(entities[1..], position);
    }
  }

  /** The record of one paper. */
  function BuildRecord(p: Paper): Record {
    var titleLength := |Words(p.title)|;
    var abstractLength := |Words(p.paperAbstract)|;
    var titleAna := Mentions(p.entities, "title");
    var abstractAna := Mentions(p.entities, "abstract");
    Record(p.pmid, p.title, titleLength, p.paperAbstract, abstractLength,
           p.date, AuthorList(p.author), p.journal, Mesh(p.meshHeading),
           Join(titleAna, " "), Join(abstractAna, " "), |titleAna|, |abstractAna|,
           titleLength + abstractLength + |titleAna| + |abstractAna|)
  }

  /** What a record's numbers mean: the title and abstract lengths count
      their words, the two annotation lengths together with the dropped
      entities account for every entity, and the total adds up the four
      lengths. */
  lemma RecordLengths(p: Paper)
    ensures BuildRecord(p).titleLength == |Words(BuildRecord(p).title)|
    ensures BuildRecord(p).abstractLength == |Words(BuildRecord(p).paperAbstract)|
    ensures BuildRecord(p).titleAnaLength + BuildRecord(p).abstractAnaLength + Dropped(p.entities) == |p.entities|
    ensures BuildRecord(p).totalLength == BuildRecord(p).titleLength + BuildRecord(p).abstractLength
                                          + BuildRecord(p).titleAnaLength + BuildRecord(p).abstractAnaLength
  {
    PartitionCounts(p.entities);
  }

  /** When every kept entity has a non-blank name, the indexed annotation
      text splits back into exactly the mentions, so each annotation length
      is the number of tokens the search engine sees in that field. */
  lemma AnnotationTokens(p: Paper)
    requires NamedIn(p.entities, "title") && NamedIn(p.entities, "abstract")
    ensures Words(BuildRecord(p).titleAna) == Mentions(p.entities, "title")
    ensures Words(BuildRecord(p).abstractAna) == Mentions(p.entities, "abstract")
    ensures BuildRecord(p).titleAnaLength == |Words(BuildRecord(p).titleAna)|
    ensures BuildRecord(p).abstractAnaLength == |Words(BuildRecord(p).abstractAna)|
  {
    MentionsAreWords(p.entities, "title");
    MentionsAreWords(p.entities, "abstract");
    WordsOfJoin(Mentions(p.entities, "title"));
    WordsOfJoin(Mentions(p.entities, "abstract"));
  }

  function TitleLength(r: Record): int { r.titleLength }
  function AbstractLength(r: Record): int { r.abstractLength }
  function TitleAnaLength(r: Record): int { r.titleAnaLength }
  function AbstractAnaLength(r: Record): int { r.abstractAnaLength }
  function TotalLength(r: Record): int { r.totalLength }
  function Pmid(r: Record): string { r.pmid }

  /** The statistics written once all papers are indexed. */
  datatype Stats = Stats(
    numPaper: nat, titleLengthSum: int, abstractLengthSum: int,
    titleAnaLengthSum: int, abstractAnaLengthSum: int, totalLengthSum: int)

  lemma SumsSnoc(records: seq<Record>, r: Record)
    ensures SumOf(records + [r], TitleLength) == SumOf(records, TitleLength) + r.titleLength
    ensures SumOf(records + [r], AbstractLength) == SumOf(records, AbstractLength) + r.abstractLength
    ensures SumOf(records + [r], TitleAnaLength) == SumOf(records, TitleAnaLength) + r.titleAnaLength
    ensures SumOf(records + [r], AbstractAnaLength) == SumOf(records, AbstractAnaLength) + r.abstractAnaLength
    ensures SumOf(records + [r], TotalLength) == SumOf(records, TotalLength) + r.totalLength
  {
    SumOfSnoc(records, r, TitleLength);
    SumOfSnoc(records, r, AbstractLength);
    SumOfSnoc(records, r, TitleAnaLength);
    SumOfSnoc(records, r, AbstractAnaLength);
    SumOfSnoc(records, r, TotalLength);
  }

  /** The indexing loop without the requests: one record per paper, in
      order, and running sums that are the per-field totals over all
      papers; the total sum is the sum of the four field sums. */
  method IndexPapers(papers: seq<Paper>) returns (records: seq<Record>, stats: Stats)
    ensures |records| == |papers|
    ensures forall i :: 0 <= i < |papers| ==> records[i] == BuildRecord(papers[i])
    ensures stats.numPaper == |papers|
    ensures stats.titleLengthSum == SumOf(records, TitleLength)
    ensures stats.abstractLengthSum == SumOf(records, AbstractLength)
    ensures stats.titleAnaLengthSum == SumOf(records, TitleAnaLength)
    ensures stats.abstractAnaLengthSum == SumOf(records, AbstractAnaLength)
    ensures stats.totalLengthSum == SumOf(records, TotalLength)
    ensures stats.totalLengthSum
            == stats.titleLengthSum + stats.abstractLengthSum + stats.titleAnaLengthSum + stats.abstractAnaLengthSum
  {
    records := [];
    stats := Stats(0, 0, 0, 0, 0, 0);
    while |records| < |papers|
      invariant |records| <= |papers|
      invariant forall i :: 0 <= i < |records| ==> records[i] == BuildRecord(papers[i])
      invariant stats.numPaper == |records|
      invariant stats.titleLengthSum == SumOf(records, TitleLength)
      invariant stats.abstractLengthSum == SumOf(records, AbstractLength)
      invariant stats.titleAnaLengthSum == SumOf(records, TitleAnaLength)
      invariant stats.abstractAnaLengthSum == SumOf(records, AbstractAnaLength)
      invariant stats.totalLengthSum == SumOf(records, TotalLength)
      invariant stats.totalLengthSum
                == stats.titleLengthSum + stats.abstractLengthSum + stats.titleAnaLengthSum + stats.abstractAnaLengthSum
    {
      var r := BuildRecord(papers[|records|]);
      RecordLengths(papers[|records|]);
      SumsSnoc(records, r);
      stats := Stats(
        stats.numPaper + 1,
        stats.titleLengthSum + r.titleLength,
        stats.abstractLengthSum + r.abstractLength,
        stats.titleAnaLengthSum + r.titleAnaLength,
        stats.abstractAnaLengthSum + r.abstractAnaLength,
        stats.totalLengthSum + r.totalLength);
      records := records + [r];
    }
  }

  /** The whole loader: the records as above, sent in order in requests of
      at most 500 records, each record keyed by its PMID. */
  method Load(index: string, docType: string, papers: seq<Paper>)
    returns (stats: Stats, batches: seq<seq<Record>>, bodies: seq<seq<Entry<Record>>>)
    ensures |Flatten(batches)| == |papers|
    ensures forall i :: 0 <= i < |papers| ==> Flatten(batches)[i] == BuildRecord(papers[i])
    ensures forall b :: 0 <= b < |batches| ==> 1 <= |batches[b]| <= BulkSize
    ensures |bodies| == |batches|
    ensures forall b :: 0 <= b < |bodies| ==> bodies[b] == Body(index, docType, Pmid, batches[b])
    ensures stats.numPaper == |papers|
    ensures stats.totalLengthSum
            == stats.titleLengthSum + stats.abstractLengthSum + stats.titleAnaLengthSum + stats.abstractAnaLengthSum
  {
    var records;
    records, stats := IndexPapers(papers);
    batches, bodies := Batches(index, docType, Pmid, records);
  }

  /** The index of the SetRank loader. */
  const TrecIndex: string := "trec"
  const TrecType: string := "trec_papers"

  /** The baseline loader's index and type for a similarity module name. */
  function IndexName(sim: string): (name: string)
    ensures |name| == |sim| + 9 && name[9..] == sim
  {
    "trec0405_" + sim
  }

  function TypeName(sim: string): (name: string)
    ensures |name| == |sim| + 16 && name[16..] == sim
  {
    "trec0405_papers_" + sim
  }

  /** Different similarity modules index into different indices and types,
      none of which is the SetRank loader's. */
  lemma BaselineNamesDistinct(sim1: string, sim2: string)
    ensures IndexName(sim1) == IndexName(sim2) <==> sim1 == sim2
    ensures TypeName(sim1) == TypeName(sim2) <==> sim1 == sim2
    ensures IndexName(sim1) != TrecIndex && TypeName(sim1) != TrecType
  {
    if IndexName(sim1) == IndexName(sim2) {
      assert sim1 == IndexName(sim1)[9..];
    }
    if TypeName(sim1) == TypeName(sim2) {
      assert sim1 == TypeName(sim1)[16..];
    }
  }
}
