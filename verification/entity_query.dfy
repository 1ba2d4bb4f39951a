/** The pure parts of the SetRank query builder for the TREC-BIO collection
    (code/SetRank/setRank_TREC.py): reading the knowledge base line by
    line, the type distance between two entities, the entity and word
    statistics of the rescoring query with their interaction matrices and
    relative field weights, the `entity:count` summary string, and the
    expansion of a query's `{entity: count}` map into an entity string.
    Tokenisation by TextBlob is not modelled: its word list is an input. */
module EntityQuery {
  import opened Seqs
  import opened Text
  import opened Counting

  // ----- the knowledge base -----

  /** The knowledge base maps an entity key to one type path. */
  type Kb = map<string, string>

  /** One knowledge-base line: stripped and split on tabs; a line with any
      other number of fields than two (an empty line gives one) is reported
      and skipped; otherwise the entity, with blanks turned into `_` and
      lower-cased, is the key of the type in the second field. */
  function KbLine(line: string): (entry: Option<(string, string)>)
    ensures entry.Some? <==> |SplitOn(Strip(line), '\t')| == 2
    ensures entry.Some? ==> ' ' !in entry.value.0
    ensures entry.Some? ==> forall i :: 0 <= i < |entry.value.0| ==> !('A' <= entry.value.0[i] <= 'Z')
    ensures Strip(line) == [] ==> entry.None?
  {
    var fields := SplitOn(Strip(line), '\t');
    if |fields| != 2 then None
    else
      var key := Lower(Replace(fields[0], ' ', '_'));
      ReplaceRemoves(fields[0], ' ', '_');
      LowerProperties(Replace(fields[0], ' ', '_'));
      assert forall i :: 0 <= i < |key| ==> key[i] != ' ';
      Some((key, fields[1]))
  }

  /** Lines already in the form the knowledge base file is written in are
      read back unchanged: an entity key without blanks, tabs or upper-case
      letters, a tab, and a type without tabs that does not end in
      whitespace. */
  lemma KbLineRoundTrip(key: string, typ: string)
    requires IsWord(key) && '\t' !in key
    requires forall i :: 0 <= i < |key| ==> key[i] != ' ' && !('A' <= key[i] <= 'Z')
    requires |typ| > 0 && '\t' !in typ && !IsSpace(typ[|typ| - 1])
    ensures KbLine(key + "\t" + typ) == Some((key, typ))
  {
    var line := key + "\t" + typ;
    assert line == Join([key, typ], ['\t']);
    assert StripStart(line) == line;
    assert StripEnd(line) == line;
    SplitOnJoin([key, typ], '\t');
    assert Replace(key, ' ', '_') == key;
    assert Lower(key) == key;
  }

  /** `load_kb`: no file gives an empty knowledge base; otherwise the lines
      are read in order and a later line for the same key replaces the
      earlier one. */
  function LoadKb(file: Option<seq<string>>): Kb {
    match file
    case None => map[]
    case Some(lines) => ReadKb(lines)
  }

  function ReadKb(lines: seq<string>): Kb {
    Collect(lines, KbLine)
  }

  /** A key is in the knowledge base exactly when some accepted line gives
      it, and its type is the one on the last such line. */
  lemma ReadKbLastWins(lines: seq<string>, i: nat, key: string)
    requires Gives(lines, KbLine, i, key)
    requires forall j :: i < j < |lines| ==> !Gives(lines, KbLine, j, key)
    ensures key in ReadKb(lines) && ReadKb(lines)[key] == KbLine(lines[i]).value.1
  {
    CollectLastWins(lines, KbLine, i, key);
  }

  lemma ReadKbKeys(lines: seq<string>, key: string)
    ensures key in ReadKb(lines) <==> exists i: nat :: Gives(lines, KbLine, i, key)
  {
    CollectKeys(lines, KbLine, key);
  }

  /** `type_dist`: 1 when the two entities have the same type, 2 when not;
      both must be in the knowledge base (the script raises `KeyError`
      otherwise). The condition is symmetric in the two entities. */
  function TypeDist(e1: string, e2: string, kb: Kb): (d: nat)
    requires e1 in kb && e2 in kb
    ensures d == 1 || d == 2
    ensures d == 1 <==> kb[e1] == kb[e2]
  {
    if kb[e1] != kb[e2] then 2 else 1
  }

  // ----- the rescoring query -----

  /** The field weights of the `-params` argument, already converted to
      numbers; `considerType` is used as a truth value. */
  datatype Params = Params(title: real, paperAbstract: real, titleAna: real, abstractAna: real, considerType: real)

  /** `x / (x + y)` and `y / (x + y)`; `None` where Python raises
      `ZeroDivisionError`. */
  function RelativeWeights(x: real, y: real): (w: Option<(real, real)>)
    ensures w.None? <==> x + y == 0.0
    ensures w.Some? ==> w.value.0 + w.value.1 == 1.0
    ensures w.Some? ==> w.value.0 * (x + y) == x && w.value.1 * (x + y) == y
  {
    if x + y == 0.0 then None else Some((x / (x + y), y / (x + y)))
  }

  /** The lookups for the pair `i`, `j` succeed: both entities are in the
      knowledge base, or types are not considered, or it is the diagonal. */
  ghost predicate PairKnown(eids: seq<string>, kb: Kb, considerType: bool, i: nat, j: nat)
    requires i < |eids| && j < |eids|
  {
    considerType && i != j ==> eids[i] in kb && eids[j] in kb
  }

  /** The interaction between entities `i` and `j` of the query: none with
      itself, the type distance when types are considered, 1 otherwise. */
  function Interaction(eids: seq<string>, kb: Kb, considerType: bool, i: nat, j: nat): real
    requires i < |eids| && j < |eids|
    requires considerType && i != j ==> eids[i] in kb && eids[j] in kb
  {
    if i == j then 0.0
    else if considerType then TypeDist(eids[i], eids[j], kb) as real
    else 1.0
  }

  lemma InteractionSymmetric(eids: seq<string>, kb: Kb, considerType: bool, i: nat, j: nat)
    requires i < |eids| && j < |eids|
    requires considerType && i != j ==> eids[i] in kb && eids[j] in kb
    ensures Interaction(eids, kb, considerType, i, j) == Interaction(eids, kb, considerType, j, i)
  {
  }

  /** The interaction loops look up an entity missing from the knowledge
      base: types are considered, and there are two entities to pair. */
  ghost predicate LooksUpMissing(eids: seq<string>, kb: Kb, considerType: bool) {
    considerType && |eids| >= 2 && exists i :: 0 <= i < |eids| && eids[i] !in kb
  }

  /** Row `i` of the interaction loops looks up an entity missing from
      the knowledge base. */
  ghost predicate RowLooksUpMissing(eids: seq<string>, kb: Kb, considerType: bool, i: nat) {
    && considerType && i < |eids| && |eids| >= 2
    && (eids[i] !in kb || exists b :: 0 <= b < |eids| && b != i && eids[b] !in kb)
  }

  lemma RowMissingWitness(eids: seq<string>, kb: Kb, considerType: bool, i: nat, j: nat)
    requires considerType && i < |eids| && j < |eids| && i != j
    requires eids[i] !in kb || eids[j] !in kb
    ensures RowLooksUpMissing(eids, kb, considerType, i)
  {
  }

  lemma RowNotMissing(eids: seq<string>, kb: Kb, considerType: bool, i: nat)
    requires i < |eids|
    requires forall b :: 0 <= b < |eids| ==> PairKnown(eids, kb, considerType, i, b)
    ensures !RowLooksUpMissing(eids, kb, considerType, i)
  {
    if considerType && |eids| >= 2 {
      var other := if i == 0 then 1 else 0;
      assert PairKnown(eids, kb, considerType, i, other);
      forall b | 0 <= b < |eids| && b != i ensures eids[b] in kb {
        assert PairKnown(eids, kb, considerType, i, b);
      }
    }
  }

  /** Row `i` of the entity interaction matrix (the inner loop); `None`
      when a lookup raises `KeyError`. */
  method InteractionRow(eids: seq<string>, kb: Kb, considerType: bool, i: nat) returns (row: Option<seq<real>>)
    requires i < |eids|
    ensures row.None? <==> RowLooksUpMissing(eids, kb, considerType, i)
    ensures row.Some? ==> |row.value| == |eids|
    ensures row.Some? ==> forall b :: 0 <= b < |eids| ==>
              PairKnown(eids, kb, considerType, i, b)
              && row.value[b] == Interaction(eids, kb, considerType, i, b)
  {
    var r: seq<real> := [];
    var j := 0;
    while j < |eids|
      invariant 0 <= j <= |eids| && |r| == j
      invariant forall b :: 0 <= b < j ==>
                  PairKnown(eids, kb, considerType, i, b)
                  && r[b] == Interaction(eids, kb, considerType, i, b)
    {
      var v: real;
      if j == i {
        v := 0.0;
      } else if considerType {
        if eids[i] !in kb || eids[j] !in kb {
          RowMissingWitness(eids, kb, considerType, i, j);
          return None;
        }
        v := TypeDist(eids[i], eids[j], kb) as real;
      } else {
        v := 1.0;
      }
      assert v == Interaction(eids, kb, considerType, i, j);
      r := r + [v];
      j := j + 1;
    }
    RowNotMissing(eids, kb, considerType, i);
    row := Some(r);
  }

  /** With two entities or more, some row looks up a missing entity exactly
      when some entity is missing. */
  lemma MissingRows(eids: seq<string>, kb: Kb, considerType: bool)
    ensures LooksUpMissing(eids, kb, considerType)
        <==> exists a :: 0 <= a < |eids| && RowLooksUpMissing(eids, kb, considerType, a)
  {
    if LooksUpMissing(eids, kb, considerType) {
      var k :| 0 <= k < |eids| && eids[k] !in kb;
      if k == 0 {
        assert RowLooksUpMissing(eids, kb, considerType, 1);
      } else {
        assert RowLooksUpMissing(eids, kb, considerType, 0);
      }
    }
  }

  /** The entity interaction matrix, row by row as the script builds it;
      `None` when a lookup raises `KeyError`. The matrix is square with a
      zero diagonal, symmetric, and holds `Interaction` everywhere. */
  method EntityInteractions(eids: seq<string>, kb: Kb, considerType: bool) returns (m: Option<seq<seq<real>>>)
    ensures m.None? <==> LooksUpMissing(eids, kb, considerType)
    ensures m.Some? ==> |m.value| == |eids|
    ensures m.Some? ==> forall i :: 0 <= i < |eids| ==> |m.value[i]| == |eids|
    ensures m.Some? ==> forall i, j :: 0 <= i < |eids| && 0 <= j < |eids| ==>
              PairKnown(eids, kb, considerType, i, j)
              && m.value[i][j] == Interaction(eids, kb, considerType, i, j)
    ensures m.Some? ==> forall i, j :: 0 <= i < |eids| && 0 <= j < |eids| ==> m.value[i][j] == m.value[j][i]
  {
    MissingRows(eids, kb, considerType);
    var rows: seq<seq<real>> := [];
    var i := 0;
    while i < |eids|
      invariant 0 <= i <= |eids| && |rows| == i
      invariant forall a :: 0 <= a < i ==> !RowLooksUpMissing(eids, kb, considerType, a)
      invariant forall a :: 0 <= a < i ==> |rows[a]| == |eids|
      invariant forall a, b :: 0 <= a < i && 0 <= b < |eids| ==>
                  PairKnown(eids, kb, considerType, a, b)
                  && rows[a][b] == Interaction(eids, kb, considerType, a, b)
    {
      var row := InteractionRow(eids, kb, considerType, i);
      if row.None? {
        return None;
      }
      rows := rows + [row.value];
      assert rows[i] == row.value;
      i := i + 1;
    }
    forall a, b | 0 <= a < |eids| && 0 <= b < |eids| ensures rows[a][b] == rows[b][a] {
      InteractionSymmetric(eids, kb, considerType, a, b);
    }
    m := Some(rows);
  }

  /** The word interaction matrix: no interaction of a word with itself,
      strength 1 between any two different positions. */
  function WordInteractions(words: seq<string>): (m: seq<seq<nat>>)
    ensures |m| == |words|
    ensures forall i :: 0 <= i < |m| ==> m[i] == Row(|words|, i)
  {
    seq(|words|, i requires 0 <= i < |words| => Row(|words|, i))
  }

  function Row(n: nat, i: nat): (r: seq<nat>)
    ensures |r| == n
    ensures forall j :: 0 <= j < n ==> r[j] == if j == i then 0 else 1
  {
    seq(n, j => if j == i then 0 else 1)
  }

  lemma {:induction false} RowSum(n: nat, i: nat)
    ensures SumNat(Row(n, i)) == if i < n then n - 1 else n
  {
    if n > 0 {
      RowSum(n - 1, i);
      assert Row(n, i) == Row(n - 1, i) + [if n - 1 == i then 0 else 1];
      SumNatAppend(Row(n - 1, i), [if n - 1 == i then 0 else 1]);
    }
  }

  /** Every word interacts with each of the others with strength 1 and with
      itself not at all: each row sums to one less than the number of words,
      and the matrix is symmetric. */
  lemma WordInteractionsProperties(words: seq<string>)
    ensures forall i :: 0 <= i < |words| ==> SumNat(WordInteractions(words)[i]) == |words| - 1
    ensures forall i, j :: 0 <= i < |words| && 0 <= j < |words| ==>
              WordInteractions(words)[i][j] == WordInteractions(words)[j][i]
  {
    forall i | 0 <= i < |words| ensures SumNat(WordInteractions(words)[i]) == |words| - 1 {
      RowSum(|words|, i);
    }
  }

  /** What `generate_rescore_query` hands to the scoring script. */
  datatype Rescore = Rescore(
    eids: seq<string>, eidCounts: seq<int>,
    words: seq<string>, wordCounts: seq<int>,
    entityFieldWeights: (real, real), wordFieldWeights: (real, real),
    eidInteractions: seq<seq<real>>, wordInteractions: seq<seq<nat>>)

  /** Why building the rescoring query fails. */
  datatype RescoreError = ZeroDivision | MissingKey

  datatype Result<T> = Ok(value: T) | Failure(error: RescoreError)

  /** The pure part of `generate_rescore_query`: count the entity tokens
      and the words (the words TextBlob found, joined and split again), the
      relative entity and word field weights, and the two interaction
      matrices. The entity weights are divided first, then the word weights,
      then the interactions are built, which is the order in which the
      script can fail. */
  method RescoreQuery(entityString: string, blobWords: seq<string>, kb: Kb, params: Params)
    returns (r: Result<Rescore>)
    ensures r.Failure? && r.error == ZeroDivision <==>
              params.titleAna + params.abstractAna == 0.0 || params.title + params.paperAbstract == 0.0
    ensures r.Failure? && r.error == MissingKey <==>
              params.titleAna + params.abstractAna != 0.0 && params.title + params.paperAbstract != 0.0
              && LooksUpMissing(FirstSeen(Words(entityString)), kb, params.considerType != 0.0)
    ensures r.Ok? ==> r.value.eids == FirstSeen(Words(entityString))
    ensures r.Ok? ==> |r.value.eidCounts| == |r.value.eids|
    ensures r.Ok? ==> forall i :: 0 <= i < |r.value.eids| ==>
              r.value.eidCounts[i] == multiset(Words(entityString))[r.value.eids[i]]
    ensures r.Ok? ==> r.value.words == FirstSeen(Words(Join(blobWords, " ")))
    ensures r.Ok? ==> |r.value.wordCounts| == |r.value.words|
    ensures r.Ok? ==> forall i :: 0 <= i < |r.value.words| ==>
              r.value.wordCounts[i] == multiset(Words(Join(blobWords, " ")))[r.value.words[i]]
    ensures r.Ok? ==> r.value.entityFieldWeights.0 + r.value.entityFieldWeights.1 == 1.0
    ensures r.Ok? ==> r.value.entityFieldWeights.0 * (params.titleAna + params.abstractAna) == params.titleAna
                      && r.value.entityFieldWeights.1 * (params.titleAna + params.abstractAna) == params.abstractAna
    ensures r.Ok? ==> r.value.wordFieldWeights.0 + r.value.wordFieldWeights.1 == 1.0
    ensures r.Ok? ==> r.value.wordFieldWeights.0 * (params.title + params.paperAbstract) == params.title
                      && r.value.wordFieldWeights.1 * (params.title + params.paperAbstract) == params.paperAbstract
    ensures r.Ok? ==> |r.value.eidInteractions| == |r.value.eids|
    ensures r.Ok? ==> forall i :: 0 <= i < |r.value.eids| ==> |r.value.eidInteractions[i]| == |r.value.eids|
    ensures r.Ok? ==> forall i, j :: 0 <= i < |r.value.eids| && 0 <= j < |r.value.eids| ==>
              PairKnown(r.value.eids, kb, params.considerType != 0.0, i, j)
              && r.value.eidInteractions[i][j] == Interaction(r.value.eids, kb, params.considerType != 0.0, i, j)
    ensures r.Ok? ==> |r.value.wordInteractions| == |r.value.words|
    ensures r.Ok? ==> forall i :: 0 <= i < |r.value.words| ==> |r.value.wordInteractions[i]| == |r.value.words|
    ensures r.Ok? ==> forall i, j :: 0 <= i < |r.value.words| && 0 <= j < |r.value.words| ==>
              r.value.wordInteractions[i][j] == if i == j then 0 else 1
  {
    var entities := CounterItems(Words(entityString));
    var words := CounterItems(Words(Join(blobWords, " ")));
    var entityWeights := RelativeWeights(params.titleAna, params.abstractAna);
    var wordWeights := RelativeWeights(params.title, params.paperAbstract);
    if entityWeights.None? || wordWeights.None? {
      return Failure(ZeroDivision);
    }
    CounterColumns(Words(entityString));
    CounterColumns(Words(Join(blobWords, " ")));
    var eids := Keys(entities);
    var interactions := EntityInteractions(eids, kb, params.considerType != 0.0);
    if interactions.None? {
      return Failure(MissingKey);
    }
    var ws := Keys(words);
    r := Ok(Rescore(eids, Counts(entities), ws, Counts(words), entityWeights.value, wordWeights.value,
                    interactions.value, WordInteractions(ws)));
  }

  // ----- strings passed between the script's steps -----

  /** `entity_count`: one `entity:count` item per element of `entitySet`,
      in that order, joined by commas; the count is how often the entity
      occurs among the tokens of `entityString`, 0 when it does not. */
  function EntityCount(entityString: string, entitySet: seq<string>): string {
    Join(CountItems(entityString, entitySet), ",")
  }

  function CountItems(entityString: string, entitySet: seq<string>): (items: seq<string>)
    ensures |items| == |entitySet|
  {
    var counts := multiset(Words(entityString));
    seq(|entitySet|, i requires 0 <= i < |entitySet| => entitySet[i] + ":" + NatToString(counts[entitySet[i]]))
  }

  /** Reading an `entity_count` string back: splitting on commas gives one
      item per entity, and splitting an item on its colon gives the entity
      and the decimal count, for a non-empty entity set whose names contain
      neither separator. */
  lemma EntityCountRoundTrip(entityString: string, entitySet: seq<string>)
    requires |entitySet| >= 1
    requires forall i :: 0 <= i < |entitySet| ==> ',' !in entitySet[i] && ':' !in entitySet[i]
    ensures |SplitOn(EntityCount(entityString, entitySet), ',')| == |entitySet|
    ensures forall i :: 0 <= i < |entitySet| ==>
              var item := SplitOn(SplitOn(EntityCount(entityString, entitySet), ',')[i], ':');
              |item| == 2 && item[0] == entitySet[i]
              && (forall k :: 0 <= k < |item[1]| ==> IsDigit(item[1][k]))
              && ParseNat(item[1]) == multiset(Words(entityString))[entitySet[i]]
  {
    var items := CountItems(entityString, entitySet);
    forall i | 0 <= i < |items| ensures ',' !in items[i] {
      ItemHasNoComma(entitySet[i], NatToString(multiset(Words(entityString))[entitySet[i]]));
    }
    SplitOnJoin(items, ',');
    forall i | 0 <= i < |entitySet|
      ensures SplitOn(items[i], ':') == [entitySet[i], NatToString(multiset(Words(entityString))[entitySet[i]])]
    {
      ItemSplits(entitySet[i], NatToString(multiset(Words(entityString))[entitySet[i]]));
    }
    forall i | 0 <= i < |entitySet|
      ensures ParseNat(NatToString(multiset(Words(entityString))[entitySet[i]])) == multiset(Words(entityString))[entitySet[i]]
    {
      ParseNatToString(multiset(Words(entityString))[entitySet[i]]);
    }
  }

  lemma ItemHasNoComma(name: string, digits: string)
    requires ',' !in name
    requires forall k :: 0 <= k < |digits| ==> IsDigit(digits[k])
    ensures ',' !in name + ":" + digits
  {
  }

  lemma ItemSplits(name: string, digits: string)
    requires ':' !in name
    requires forall k :: 0 <= k < |digits| ==> IsDigit(digits[k])
    ensures SplitOn(name + ":" + digits, ':') == [name, digits]
  {
    assert name + ":" + digits == Join([name, digits], [':']);
    SplitOnJoin([name, digits], ':');
  }

  /** The entity string of a query: each entity of its `{entity: count}`
      map repeated `count` times, in map order, joined by blanks. */
  function QueryEntityString(entities: seq<(string, int)>): string {
    Join(Expand(entities), " ")
  }

  /** Expanding a query's entity map and counting the tokens of the result,
      as the rescoring query does, gives the map back: for distinct
      whitespace-free entity names and positive counts. */
  lemma QueryEntitiesRecovered(entities: seq<(string, int)>)
    requires IsCountMap(entities)
    requires forall i :: 0 <= i < |entities| ==> IsWord(entities[i].0)
    ensures CounterItems(Words(QueryEntityString(entities))) == entities
  {
    var e := Expand(entities);
    forall k | 0 <= k < |e| ensures IsWord(e[k]) {
      ExpandFromKeys(entities, e[k]);
    }
    WordsOfJoin(e);
    CounterOfExpand(entities);
  }
}
