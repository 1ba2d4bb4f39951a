/** The record builder of code/SetRank/index_data_ESR.py, the loader of the
    Semantic Scholar computer-science corpus: each paper becomes one indexed
    record with the word counts of its title, abstract and key phrases, the
    four entity-annotation fields written out as token strings, and a total
    length; the loop keeps running sums of all eight lengths and sends the
    records in bulk, keyed by `docno`. */
module EsrLoader {
  import opened Seqs
  import opened Text
  import opened Counting
  import opened Bulk

  /** One paper of the input. `venue`, `title` and `paperAbstract` are
      lists whose first element is used; `keyPhrases` may be missing;
      `ana` maps an annotation field to its `{entity: count}` map, both as
      their items in order. */
  datatype Paper = Paper(
    docno: string, venue: seq<string>, numCitedBy: int, numKeyCitations: int,
    title: seq<string>, paperAbstract: seq<string>, keyPhrases: Option<seq<string>>,
    ana: seq<(string, seq<(string, int)>)>)

  /** An annotation field as indexed: its token string and its length. */
  datatype Slot = Slot(text: string, length: int)

  /** The indexed `data_dict`. */
  datatype Record = Record(
    docno: string, venue: string, numCitedBy: int, numKeyCitations: int,
    title: string, titleLength: nat, paperAbstract: string, abstractLength: nat,
    keyphrase: string, keyphraseLength: nat,
    bodytextAna: Slot, titleAna: Slot, abstractAna: Slot, keyphraseAna: Slot,
    totalLength: int)

  /** What the source reads without a guard: the first venue, title and
      abstract. */
  predicate HasFirsts(p: Paper) {
    |p.venue| > 0 && |p.title| > 0 && |p.paperAbstract| > 0
  }

  /** A paper the loader accepts; a JSON object also never repeats an
      annotation field. */
  ghost predicate Loadable(p: Paper) {
    HasFirsts(p) && Distinct(Fields(p.ana))
  }

  function Fields(ana: seq<(string, seq<(string, int)>)>): (fs: seq<string>)
    ensures |fs| == |ana|
    ensures forall i :: 0 <= i < |ana| ==> fs[i] == ana[i].0
  {
    seq(|ana|, i requires 0 <= i < |ana| => ana[i].0)
  }

  /** The annotation fields the record has a place for. */
  predicate IsKnown(field: string) {
    field == "bodyText" || field == "title" || field == "paperAbstract" || field == "keyPhrases"
  }

  /** A `{entity: count}` map written out: every entity repeated `count`
      times, blank-separated, and the sum of the counts. */
  function Expansion(counts: seq<(string, int)>): Slot {
    Slot(Join(Expand(counts), " "), TotalCount(counts))
  }

  /** What one annotation field stores: its expansion under its own name
      when the name is known, nothing otherwise. */
  function StoredSlot(field: (string, seq<(string, int)>)): Option<(string, Slot)> {
    if IsKnown(field.0) then Some((field.0, Expansion(field.1))) else None
  }

  function Stored(ana: seq<(string, seq<(string, int)>)>): map<string, Slot> {
    Collect(ana, StoredSlot)
  }

  /** A stored field, or the empty string with length 0 for a field the
      paper does not have. */
  function SlotOf(stored: map<string, Slot>, name: string): Slot {
    if name in stored then stored[name] else Slot("", 0)
  }

  /** `ann_length`, added to the total for every field, known or not. */
  function AnaLength(field: (string, seq<(string, int)>)): int {
    TotalCount(field.1)
  }

  /** The length of a field that is reported and not stored. */
  function UnknownLength(field: (string, seq<(string, int)>)): int {
    if IsKnown(field.0) then 0 else TotalCount(field.1)
  }

  function KeyPhrases(p: Paper): seq<string> {
    if p.keyPhrases.Some? then p.keyPhrases.value else []
  }

  /** The record of one paper. */
  function BuildRecord(p: Paper): Record
    requires HasFirsts(p)
  {
    var keyphrase := Join(KeyPhrases(p), " ");
    var titleLength := |Words(p.title[0])|;
    var abstractLength := |Words(p.paperAbstract[0])|;
    var keyphraseLength := |Words(keyphrase)|;
    var stored := Stored(p.ana);
    Record(p.docno, p.venue[0], p.numCitedBy, p.numKeyCitations,
           p.title[0], titleLength, p.paperAbstract[0], abstractLength,
           keyphrase, keyphraseLength,
           SlotOf(stored, "bodyText"), SlotOf(stored, "title"),
           SlotOf(stored, "paperAbstract"), SlotOf(stored, "keyPhrases"),
           titleLength + abstractLength + keyphraseLength + SumOf(p.ana, AnaLength))
  }

  /** A missing key-phrase list gives an empty string of length 0;
      otherwise the key-phrase length is the number of words over all the
      phrases. */
  lemma KeyphraseWords(p: Paper)
    requires HasFirsts(p)
    ensures p.keyPhrases.None? ==> BuildRecord(p).keyphrase == [] && BuildRecord(p).keyphraseLength == 0
    ensures p.keyPhrases.Some? ==> BuildRecord(p).keyphraseLength == TotalWords(p.keyPhrases.value)
  {
    WordsOfPhrases(KeyPhrases(p));
  }

  /** A known field of the paper is stored as its expansion; a known field
      the paper lacks is stored as the empty string with length 0. */
  lemma AnnotationSlot(ana: seq<(string, seq<(string, int)>)>, name: string)
    requires IsKnown(name) && Distinct(Fields(ana))
    ensures name !in Fields(ana) ==> SlotOf(Stored(ana), name) == Slot("", 0)
    ensures forall i :: 0 <= i < |ana| && ana[i].0 == name ==> SlotOf(Stored(ana), name) == Expansion(ana[i].1)
  {
    if name !in Fields(ana) {
      forall i: nat ensures !Gives(ana, StoredSlot, i, name) {
        if i < |ana| {
          assert Fields(ana)[i] in Fields(ana);
        }
      }
      CollectKeys(ana, StoredSlot, name);
    }
    forall i | 0 <= i < |ana| && ana[i].0 == name
      ensures SlotOf(Stored(ana), name) == Expansion(ana[i].1)
    {
      forall j | i < j < |ana| ensures !Gives(ana, StoredSlot, j, name) {
        assert Fields(ana)[i] != Fields(ana)[j];
      }
      CollectLastWins(ana, StoredSlot, i, name);
    }
  }

  /** The four stored annotation lengths. */
  function StoredLength(stored: map<string, Slot>): int {
    SlotOf(stored, "bodyText").length + SlotOf(stored, "title").length
    + SlotOf(stored, "paperAbstract").length + SlotOf(stored, "keyPhrases").length
  }

  lemma StoredLengthUpdate(stored: map<string, Slot>, name: string, s: Slot)
    requires IsKnown(name) && name !in stored
    ensures StoredLength(stored[name := s]) == StoredLength(stored) + s.length
  {
  }

  /** The lengths of all annotation fields add up to the four stored
      lengths plus the lengths of the fields that are not stored. */
  lemma {:induction false} AnaLengthSplit(ana: seq<(string, seq<(string, int)>)>)
    requires Distinct(Fields(ana))
    ensures SumOf(ana, AnaLength) == StoredLength(Stored(ana)) + SumOf(ana, UnknownLength)
    decreases |ana|
  {
    if |ana| > 0 {
      var n := |ana| - 1;
      var init := ana[..n];
      assert Distinct(Fields(init)) by {
        forall i | 0 <= i < n ensures Fields(init)[i] == Fields(ana)[i] { }
      }
      AnaLengthSplit(init);
      if IsKnown(ana[n].0) {
        forall i: nat ensures !Gives(init, StoredSlot, i, ana[n].0) {
          if i < n {
            assert init[i] == ana[i] && Fields(ana)[i] != Fields(ana)[n];
          }
        }
        CollectKeys(init, StoredSlot, ana[n].0);
        StoredLengthUpdate(Stored(init), ana[n].0, Expansion(ana[n].1));
      }
    }
  }

  /** The number of annotation tokens the paper has in fields the record
      has no place for. */
  function UnknownAnaLength(p: Paper): int {
    SumOf(p.ana, UnknownLength)
  }

  /** The total length is the three word lengths, the four stored
      annotation lengths and the lengths of the annotation fields that were
      reported and dropped. */
  lemma RecordTotal(p: Paper)
    requires Loadable(p)
    ensures BuildRecord(p).totalLength
            == BuildRecord(p).titleLength + BuildRecord(p).abstractLength + BuildRecord(p).keyphraseLength
               + BuildRecord(p).bodytextAna.length + BuildRecord(p).titleAna.length
               + BuildRecord(p).abstractAna.length + BuildRecord(p).keyphraseAna.length
               + UnknownAnaLength(p)
  {
    AnaLengthSplit(p.ana);
  }

  /** The token string of an annotation map holds each entity exactly as
      many times as its count, and nothing else, when the entities are
      distinct single tokens with non-negative counts; its length is then
      the number of its tokens. */
  lemma ExpansionTokens(counts: seq<(string, int)>)
    requires Distinct(Keys(counts)) && NonNegative(counts)
    requires forall i :: 0 <= i < |counts| ==> IsWord(counts[i].0)
    ensures Words(Expansion(counts).text) == Expand(counts)
    ensures forall i :: 0 <= i < |counts| ==> multiset(Words(Expansion(counts).text))[counts[i].0] == counts[i].1
    ensures Expansion(counts).length == |Words(Expansion(counts).text)|
  {
    var tokens := Expand(counts);
    forall t | 0 <= t < |tokens| ensures IsWord(tokens[t]) {
      ExpandFromKeys(counts, tokens[t]);
      var k :| 0 <= k < |counts| && Keys(counts)[k] == tokens[t];
    }
    WordsOfJoin(tokens);
    ExpandLength(counts);
    forall i | 0 <= i < |counts| ensures multiset(tokens)[counts[i].0] == counts[i].1 {
      ExpandCount(counts, i);
    }
  }

  function TitleLength(r: Record): int { r.titleLength }
  function AbstractLength(r: Record): int { r.abstractLength }
  function KeyphraseLength(r: Record): int { r.keyphraseLength }
  function TitleAnaLength(r: Record): int { r.titleAna.length }
  function AbstractAnaLength(r: Record): int { r.abstractAna.length }
  function KeyphraseAnaLength(r: Record): int { r.keyphraseAna.length }
  function BodytextAnaLength(r: Record): int { r.bodytextAna.length }
  function TotalLength(r: Record): int { r.totalLength }
  function Docno(r: Record): string { r.docno }

  /** The statistics written once all papers are indexed. */
  datatype Stats = Stats(
    numPaper: nat, titleLengthSum: int, abstractLengthSum: int, keyphraseLengthSum: int,
    titleAnaLengthSum: int, abstractAnaLengthSum: int, bodytextAnaLengthSum: int,
    keyphraseAnaLengthSum: int, totalLengthSum: int)

  /** The seven field sums. */
  function FieldSums(s: Stats): int {
    s.titleLengthSum + s.abstractLengthSum + s.keyphraseLengthSum
    + s.titleAnaLengthSum + s.abstractAnaLengthSum + s.bodytextAnaLengthSum + s.keyphraseAnaLengthSum
  }

  /** What a record's total holds beyond its seven field lengths: by
      `RecordTotal`, the lengths of the annotation fields it does not store. */
  function Unstored(r: Record): int {
    r.totalLength
    - (r.titleLength + r.abstractLength + r.keyphraseLength
       + r.bodytextAna.length + r.titleAna.length + r.abstractAna.length + r.keyphraseAna.length)
  }

  /** One step of the running sums. */
  function AddRecord(s: Stats, r: Record): Stats {
    Stats(s.numPaper + 1,
          s.titleLengthSum + r.titleLength, s.abstractLengthSum + r.abstractLength,
          s.keyphraseLengthSum + r.keyphraseLength,
          s.titleAnaLengthSum + r.titleAna.length, s.abstractAnaLengthSum + r.abstractAna.length,
          s.bodytextAnaLengthSum + r.bodytextAna.length, s.keyphraseAnaLengthSum + r.keyphraseAna.length,
          s.totalLengthSum + r.totalLength)
  }

  /** Every running sum is the total of its field over `records`. */
  ghost predicate Summed(records: seq<Record>, s: Stats) {
    && s.numPaper == |records|
    && s.titleLengthSum == SumOf(records, TitleLength)
    && s.abstractLengthSum == SumOf(records, AbstractLength)
    && s.keyphraseLengthSum == SumOf(records, KeyphraseLength)
    && s.titleAnaLengthSum == SumOf(records, TitleAnaLength)
    && s.abstractAnaLengthSum == SumOf(records, AbstractAnaLength)
    && s.bodytextAnaLengthSum == SumOf(records, BodytextAnaLength)
    && s.keyphraseAnaLengthSum == SumOf(records, KeyphraseAnaLength)
    && s.totalLengthSum == SumOf(records, TotalLength)
  }

  lemma WordSumsSnoc(records: seq<Record>, r: Record)
    ensures SumOf(records + [r], TitleLength) == SumOf(records, TitleLength) + r.titleLength
    ensures SumOf(records + [r], AbstractLength) == SumOf(records, AbstractLength) + r.abstractLength
    ensures SumOf(records + [r], KeyphraseLength) == SumOf(records, KeyphraseLength) + r.keyphraseLength
    ensures SumOf(records + [r], TotalLength) == SumOf(records, TotalLength) + r.totalLength
  {
    SumOfSnoc(records, r, TitleLength);
    SumOfSnoc(records, r, AbstractLength);
    SumOfSnoc(records, r, KeyphraseLength);
    SumOfSnoc(records, r, TotalLength);
  }

  lemma AnaSumsSnoc(records: seq<Record>, r: Record)
    ensures SumOf(records + [r], TitleAnaLength) == SumOf(records, TitleAnaLength) + r.titleAna.length
    ensures SumOf(records + [r], AbstractAnaLength) == SumOf(records, AbstractAnaLength) + r.abstractAna.length
    ensures SumOf(records + [r], BodytextAnaLength) == SumOf(records, BodytextAnaLength) + r.bodytextAna.length
    ensures SumOf(records + [r], KeyphraseAnaLength) == SumOf(records, KeyphraseAnaLength) + r.keyphraseAna.length
  {
    SumOfSnoc(records, r, TitleAnaLength);
    SumOfSnoc(records, r, AbstractAnaLength);
    SumOfSnoc(records, r, BodytextAnaLength);
    SumOfSnoc(records, r, KeyphraseAnaLength);
  }

  lemma SummedStep(records: seq<Record>, s: Stats, r: Record)
    requires Summed(records, s)
    ensures Summed(records + [r], AddRecord(s, r))
  {
    WordSumsSnoc(records, r);
    AnaSumsSnoc(records, r);
  }

  /** Summed over records, the total length is the seven field lengths
      plus what the records hold beyond them. */
  lemma {:induction false} TotalSplit(records: seq<Record>)
    ensures SumOf(records, TotalLength)
            == SumOf(records, TitleLength) + SumOf(records, AbstractLength) + SumOf(records, KeyphraseLength)
               + SumOf(records, TitleAnaLength) + SumOf(records, AbstractAnaLength)
               + SumOf(records, BodytextAnaLength) + SumOf(records, KeyphraseAnaLength)
               + SumOf(records, Unstored)
    decreases |records|
  {
    if |records| > 0 {
      TotalSplit(records[..|records| - 1]);
    }
  }

  /** The running sums over a sequence of records: each is the total of
      its field, and the total sum is the seven field sums plus what the
      records hold beyond them. */
  method SumRecords(records: seq<Record>) returns (stats: Stats)
    ensures stats.numPaper == |records|
    ensures stats.titleLengthSum == SumOf(records, TitleLength)
    ensures stats.abstractLengthSum == SumOf(records, AbstractLength)
    ensures stats.keyphraseLengthSum == SumOf(records, KeyphraseLength)
    ensures stats.titleAnaLengthSum == SumOf(records, TitleAnaLength)
    ensures stats.abstractAnaLengthSum == SumOf(records, AbstractAnaLength)
    ensures stats.bodytextAnaLengthSum == SumOf(records, BodytextAnaLength)
    ensures stats.keyphraseAnaLengthSum == SumOf(records, KeyphraseAnaLength)
    ensures stats.totalLengthSum == SumOf(records, TotalLength)
    ensures stats.totalLengthSum == FieldSums(stats) + SumOf(records, Unstored)
  {
    stats := Stats(0, 0, 0, 0, 0, 0, 0, 0, 0);
    var n := 0;
    while n < |records|
      invariant n <= |records|
      invariant Summed(records[..n], stats)
    {
      var r := records[n];
      SummedStep(records[..n], stats, r);
      assert records[..n + 1] == records[..n] + [r];
      stats := AddRecord(stats, r);
      n := n + 1;
    }
    assert records[..n] == records;
    TotalSplit(records);
  }

  /** The indexing loop without the requests: one record per paper, in
      order, and the running sums over them. */
  method IndexPapers(papers: seq<Paper>) returns (records: seq<Record>, stats: Stats)
    requires forall i :: 0 <= i < |papers| ==> HasFirsts(papers[i])
    ensures |records| == |papers|
    ensures forall i :: 0 <= i < |papers| ==> records[i] == BuildRecord(papers[i])
    ensures Summed(records, stats)
    ensures stats.totalLengthSum == FieldSums(stats) + SumOf(records, Unstored)
  {
    records := seq(|papers|, i requires 0 <= i < |papers| => BuildRecord(papers[i]));
    stats := SumRecords(records);
  }

  /** Over a whole input, what the records hold beyond their field lengths
      is the length of all annotation fields that no record stores. */
  lemma UnstoredSum(papers: seq<Paper>, records: seq<Record>)
    requires |records| == |papers|
    requires forall i :: 0 <= i < |papers| ==> HasFirsts(papers[i])
    requires forall i :: 0 <= i < |papers| ==> Distinct(Fields(papers[i].ana))
    requires forall i :: 0 <= i < |papers| ==> records[i] == BuildRecord(papers[i])
    ensures SumOf(records, Unstored) == SumOf(papers, UnknownAnaLength)
  {
    forall i | 0 <= i < |papers| ensures Unstored(records[i]) == UnknownAnaLength(papers[i]) {
      RecordTotal(papers[i]);
    }
    SumOfPointwise(records, Unstored, papers, UnknownAnaLength);
  }

  /** The whole loader: the records as above, sent in order in requests of
      at most 500 records, each record keyed by its `docno`. */
  method Load(papers: seq<Paper>)
    returns (stats: Stats, batches: seq<seq<Record>>, bodies: seq<seq<Entry<Record>>>)
    requires forall i :: 0 <= i < |papers| ==> HasFirsts(papers[i])
    requires forall i :: 0 <= i < |papers| ==> Distinct(Fields(papers[i].ana))
    ensures |Flatten(batches)| == |papers|
    ensures forall i :: 0 <= i < |papers| ==> Flatten(batches)[i] == BuildRecord(papers[i])
    ensures forall b :: 0 <= b < |batches| ==> 1 <= |batches[b]| <= BulkSize
    ensures |bodies| == |batches|
    ensures forall b :: 0 <= b < |bodies| ==> bodies[b] == Body("s2", "s2_papers", Docno, batches[b])
    ensures stats.numPaper == |papers|
    ensures stats.totalLengthSum == FieldSums(stats) + SumOf(papers, UnknownAnaLength)
  {
    var records;
    records, stats := IndexPapers(papers);
    UnstoredSum(papers, records);
    batches, bodies := Batches("s2", "s2_papers", Docno, records);
  }
}
