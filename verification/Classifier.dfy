/** The rule-based classifier: keyword scores, stable ranking, confidence and alternatives. */
module Classifier {
  import opened Basics

  datatype DocType =
    | Hcl | DispozitiePrimar | ActNormativLocal | ProiectHotarare | Regulament | Buget | RaportExecutieBugetara
    | Pug | Puz | Strategie | Organigrama | RaportActivitate | ProcesVerbal | ConsultarePublica | AnuntPublic
    | AnuntAchizitie | DeclaratieAvere | Other

  /** URL fragments, tried in this order. */
  const URL_PATTERNS: seq<(string, DocType)> := [
    ("/hcl/", Hcl), ("/hotarari/", Hcl), ("/dispozitii/", DispozitiePrimar), ("/proiecte/", ProiectHotarare),
    ("/regulamente/", Regulament), ("/buget/", Buget), ("/pug/", Pug), ("/puz/", Puz), ("/strategii/", Strategie),
    ("/organigrama/", Organigrama), ("/rapoarte/", RaportActivitate), ("/procese-verbale/", ProcesVerbal),
    ("/consultare/", ConsultarePublica), ("/achizitii/", AnuntAchizitie), ("/declaratii/", DeclaratieAvere),
    ("/anunturi/", AnuntPublic), ("/executie/", RaportExecutieBugetara), ("/acte-normative/", ActNormativLocal)]

  /** Keywords of every type but `Other`, in enum order. */
  const KEYWORDS: seq<(DocType, seq<string>)> := [
    (Hcl, ["hotarare", "hotărâre", "hotararea", "hotărârea", "consiliul local", "hotararea nr", "hotărârea nr",
           "hotarare nr", "hotărâre nr"]),
    (DispozitiePrimar, ["dispozitie", "dispoziție", "primar"]),
    (ActNormativLocal, ["act normativ"]),
    (ProiectHotarare, ["proiect de hotarare", "proiect de hotărâre"]),
    (Regulament, ["regulament"]),
    (Buget, ["buget local", "bugetului local", "bugetul local"]),
    (RaportExecutieBugetara, ["executie bugetara", "execuție bugetară"]),
    (Pug, ["plan urbanistic general", "pug"]),
    (Puz, ["plan urbanistic zonal", "puz"]),
    (Strategie, ["strategie", "dezvoltare"]),
    (Organigrama, ["organigrama", "organigramă"]),
    (RaportActivitate, ["raport de activitate"]),
    (ProcesVerbal, ["proces verbal"]),
    (ConsultarePublica, ["consultare publica", "consultare publică", "dezbatere"]),
    (AnuntPublic, ["anunt", "anunț"]),
    (AnuntAchizitie, ["achizitie", "achiziție", "licitatie", "licitație"]),
    (DeclaratieAvere, ["declaratie de avere", "declarație de avere", "interese"])]

  /** Place in the enum. */
  function Position(d: DocType): nat {
    match d
    case Hcl => 0 case DispozitiePrimar => 1 case ActNormativLocal => 2 case ProiectHotarare => 3
    case Regulament => 4 case Buget => 5 case RaportExecutieBugetara => 6 case Pug => 7 case Puz => 8
    case Strategie => 9 case Organigrama => 10 case RaportActivitate => 11 case ProcesVerbal => 12
    case ConsultarePublica => 13 case AnuntPublic => 14 case AnuntAchizitie => 15 case DeclaratieAvere => 16
    case Other => 17
  }

  /** The keyword table lists every type but `Other` once, in enum order, so positions in it are enum order. */
  lemma KeywordsFollowEnum(i: nat)
    requires i < |KEYWORDS|
    ensures |KEYWORDS| == 17 && Position(KEYWORDS[i].0) == i
  {
  }

  /** A table pairs each type with its keywords, types in enum order. */
  type Table = seq<(DocType, seq<string>)>

  // ----- scores

  /** Total length of the keywords found. */
  function Score(words: seq<string>, found: string -> bool): nat {
    if words == [] then 0
    else Score(words[..|words| - 1], found) + (if found(words[|words| - 1]) then |words[|words| - 1]| else 0)
  }

  // The same without adding up: the found keywords, written one after the other.

  function FoundWords(words: seq<string>, found: string -> bool): seq<string> {
    if words == [] then [] else (if found(words[0]) then [words[0]] else []) + FoundWords(words[1..], found)
  }

  function Joined(words: seq<string>): string {
    if words == [] then "" else words[0] + Joined(words[1..])
  }

  lemma {:induction false} FoundAppend(words: seq<string>, word: string, found: string -> bool)
    ensures FoundWords(words + [word], found) == FoundWords(words, found) + (if found(word) then [word] else [])
  {
    if words == [] {
      assert [word][1..] == [];
    } else {
      assert (words + [word])[1..] == words[1..] + [word];
      FoundAppend(words[1..], word, found);
    }
  }

  lemma {:induction false} JoinedAppend(words: seq<string>, word: string)
    ensures Joined(words + [word]) == Joined(words) + word
  {
    if words == [] {
      assert [word][1..] == [];
      assert word + "" == word;
    } else {
      assert (words + [word])[1..] == words[1..] + [word];
      JoinedAppend(words[1..], word);
    }
  }

  /** The score is the length of the found keywords written one after the other. */
  lemma {:induction false} ScoreIsLength(words: seq<string>, found: string -> bool)
    ensures Score(words, found) == |Joined(FoundWords(words, found))|
    decreases |words|
  {
    if words == [] {
    } else {
      var n := |words| - 1;
      assert words == words[..n] + [words[n]];
      ScoreIsLength(words[..n], found);
      FoundAppend(words[..n], words[n], found);
      JoinedAppend(FoundWords(words[..n], found), words[n]);
      assert FoundWords(words[..n], found) + [] == FoundWords(words[..n], found);
      hide FoundWords, Joined;
    }
  }

  method KeywordScores(table: Table, found: string -> bool) returns (scores: seq<nat>)
    ensures |scores| == |table| && forall i | 0 <= i < |table| :: scores[i] == Score(table[i].1, found)
    ensures forall i | 0 <= i < |table| :: scores[i] == |Joined(FoundWords(table[i].1, found))|
  {
    scores := seq(|table|, _ => 0);
    for i := 0 to |table|
      invariant |scores| == |table|
      invariant forall k | 0 <= k < i :: scores[k] == Score(table[k].1, found)
      invariant forall k | i <= k < |table| :: scores[k] == 0
    {
      var words := table[i].1;
      for j := 0 to |words|
        invariant |scores| == |table|
        invariant forall k | 0 <= k < i :: scores[k] == Score(table[k].1, found)
        invariant forall k | i < k < |table| :: scores[k] == 0
        invariant scores[i] == Score(words[..j], found)
      {
        assert words[..j + 1][..j] == words[..j];
        if found(words[j]) {
          scores := scores[i := scores[i] + |words[j]|];
        }
      }
      assert words[..|words|] == words;
    }
    forall i | 0 <= i < |table|
      ensures scores[i] == |Joined(FoundWords(table[i].1, found))|
    {
      ScoreIsLength(table[i].1, found);
    }
  }

  // ----- stable ranking

  /** `i` ranks before `j`: a higher score, or the same score and earlier in the enum. */
  predicate Before(scores: seq<nat>, i: nat, j: nat)
    requires i < |scores| && j < |scores|
  {
    scores[i] > scores[j] || (scores[i] == scores[j] && i < j)
  }

  predicate Indices(scores: seq<nat>, r: seq<nat>) {
    forall k | 0 <= k < |r| :: r[k] < |scores|
  }

  predicate Ranked(scores: seq<nat>, r: seq<nat>) {
    Indices(scores, r) && forall a, b | 0 <= a < b < |r| :: Before(scores, r[a], r[b])
  }

  /** Put `i` behind everything that does not score less. */
  function Insert(scores: seq<nat>, r: seq<nat>, i: nat): seq<nat>
    requires i < |scores| && Indices(scores, r)
  {
    if r == [] then [i]
    else if scores[r[0]] >= scores[i] then [r[0]] + Insert(scores, r[1..], i)
    else [i] + r
  }

  /** Positions sorted by descending score, ties in their original order. */
  function Rank(scores: seq<nat>, n: nat): (r: seq<nat>)
    requires n <= |scores|
    ensures Ranked(scores, r) && forall i: nat :: i in r <==> i < n
  {
    if n == 0 then []
    else
      var r := Rank(scores, n - 1);
      InsertRanks(scores, r, n - 1);
      Insert(scores, r, n - 1)
  }

  lemma {:induction false} InsertRanks(scores: seq<nat>, r: seq<nat>, i: nat)
    requires i < |scores| && Ranked(scores, r) && forall k | k in r :: k < i
    ensures Indices(scores, Insert(scores, r, i))
    ensures Ranked(scores, Insert(scores, r, i))
    ensures forall k: nat :: k in Insert(scores, r, i) <==> k in r || k == i
    decreases |r|
  {
    if r == [] {
    } else {
      assert forall k: nat :: k in r <==> k == r[0] || k in r[1..];
      InsertRanks(scores, r[1..], i);
      var rest := Insert(scores, r[1..], i);
      if scores[r[0]] >= scores[i] {
        forall b | 0 <= b < |rest|
          ensures Before(scores, r[0], rest[b])
        {
          assert rest[b] in rest && r[0] in r;
          if rest[b] != i {
            var c :| 0 <= c < |r[1..]| && r[1..][c] == rest[b];
            assert Before(scores, r[0], r[c + 1]);
          }
        }
        RankedCons(scores, r[0], rest);
      } else {
        forall b | 0 <= b < |r|
          ensures Before(scores, i, r[b])
        {
          assert b > 0 ==> Before(scores, r[0], r[b]);
        }
        RankedCons(scores, i, r);
      }
    }
  }

  lemma RankedCons(scores: seq<nat>, i: nat, r: seq<nat>)
    requires i < |scores| && Ranked(scores, r) && forall b | 0 <= b < |r| :: Before(scores, i, r[b])
    ensures Ranked(scores, [i] + r)
  {
  }

  /** The first type in enum order with the highest score, if any score is positive. */
  predicate IsTextMatch(scores: seq<nat>, m: Option<nat>) {
    match m
    case None => forall j | 0 <= j < |scores| :: scores[j] == 0
    case Some(b) => b < |scores| && scores[b] > 0 && forall j | 0 <= j < |scores| && j != b :: Before(scores, b, j)
  }

  predicate IsUrlMatch(patterns: seq<(string, DocType)>, urlHas: string -> bool, m: Option<DocType>) {
    match m
    case None => forall k | 0 <= k < |patterns| :: !urlHas(patterns[k].0)
    case Some(d) =>
      exists k :: 0 <= k < |patterns| && urlHas(patterns[k].0) && patterns[k].1 == d
                  && forall j | 0 <= j < k :: !urlHas(patterns[j].0)
  }

  method FindUrlMatch(patterns: seq<(string, DocType)>, urlHas: string -> bool) returns (m: Option<DocType>)
    ensures IsUrlMatch(patterns, urlHas, m)
  {
    m := None;
    for k := 0 to |patterns|
      invariant m.None? && forall j | 0 <= j < k :: !urlHas(patterns[j].0)
    {
      if urlHas(patterns[k].0) {
        m := Some(patterns[k].1);
        break;
      }
    }
  }

  // ----- alternatives

  datatype Alternative = Alternative(docType: DocType, confidence: real)

  /** `i` may be an alternative to a document classified as `d`. */
  predicate Candidate(table: Table, scores: seq<nat>, d: DocType, i: nat)
    requires |scores| == |table|
  {
    i < |table| && table[i].0 != d && scores[i] > 0
  }

  function AltConfidence(score: nat): real {
    if score as real * 0.1 < 0.5 then score as real * 0.1 else 0.5
  }

  /** `chosen` are the two best-ranked candidates, or all of them if there are fewer. */
  ghost predicate BestTwo(table: Table, scores: seq<nat>, d: DocType, chosen: seq<nat>)
    requires |scores| == |table|
  {
    && |chosen| <= 2 && Ranked(scores, chosen)
    && (forall i | i in chosen :: Candidate(table, scores, d, i))
    && (forall i: nat | Candidate(table, scores, d, i) && i !in chosen ::
          |chosen| == 2 && forall c | c in chosen :: c < |scores| && Before(scores, c, i))
  }

  /** The candidates in rank order. */
  function Candidates(table: Table, scores: seq<nat>, d: DocType, rank: seq<nat>): seq<nat>
    requires |scores| == |table|
  {
    if rank == [] then []
    else Candidates(table, scores, d, rank[..|rank| - 1])
         + (if Candidate(table, scores, d, rank[|rank| - 1]) then [rank[|rank| - 1]] else [])
  }

  lemma {:induction false} CandidatesAreChosen(table: Table, scores: seq<nat>, d: DocType, rank: seq<nat>)
    requires |scores| == |table|
    ensures forall i: nat :: i in Candidates(table, scores, d, rank) <==> i in rank && Candidate(table, scores, d, i)
    decreases |rank|
  {
    if rank == [] {
    } else {
      var n := |rank| - 1;
      CandidatesAreChosen(table, scores, d, rank[..n]);
      assert forall i: nat :: i in rank <==> i in rank[..n] || i == rank[n];
      hide Candidate;
    }
  }

  lemma RankedGrows(scores: seq<nat>, r: seq<nat>, i: nat)
    requires Ranked(scores, r) && i < |scores| && forall a | 0 <= a < |r| :: Before(scores, r[a], i)
    ensures Ranked(scores, r + [i])
  {
  }

  lemma {:induction false} CandidatesKeepOrder(table: Table, scores: seq<nat>, d: DocType, rank: seq<nat>)
    requires |scores| == |table| && Ranked(scores, rank)
    ensures Ranked(scores, Candidates(table, scores, d, rank))
    decreases |rank|
  {
    hide Before, Candidate;
    if rank == [] {
    } else {
      var n := |rank| - 1;
      var cs := Candidates(table, scores, d, rank[..n]);
      CandidatesKeepOrder(table, scores, d, rank[..n]);
      CandidatesAreChosen(table, scores, d, rank[..n]);
      forall a | 0 <= a < |cs|
        ensures Before(scores, cs[a], rank[n])
      {
        assert cs[a] in rank[..n];
        var b :| 0 <= b < n && rank[b] == cs[a];
        assert Before(scores, rank[b], rank[n]);
      }
      RankedGrows(scores, cs, rank[n]);
      assert cs + [] == cs;
      hide Ranked;
    }
  }

  lemma FirstTwoAreBest(table: Table, scores: seq<nat>, d: DocType, cs: seq<nat>)
    requires |scores| == |table| && Ranked(scores, cs) && forall i: nat :: i in cs <==> Candidate(table, scores, d, i)
    ensures BestTwo(table, scores, d, if |cs| <= 2 then cs else cs[..2])
  {
    var chosen := if |cs| <= 2 then cs else cs[..2];
    forall i: nat | Candidate(table, scores, d, i) && i !in chosen
      ensures |chosen| == 2 && Before(scores, chosen[0], i) && Before(scores, chosen[1], i)
    {
      var k :| 0 <= k < |cs| && cs[k] == i;
      assert k >= 2;
    }
  }

  method CollectAlternatives(table: Table, scores: seq<nat>, d: DocType, rank: seq<nat>)
    returns (alts: seq<Alternative>, ghost chosen: seq<nat>)
    requires |scores| == |table| && Ranked(scores, rank) && forall i: nat :: i in rank <==> i < |scores|
    ensures BestTwo(table, scores, d, chosen) && |alts| == |chosen|
    ensures forall k | 0 <= k < |alts| ::
              chosen[k] < |table| && alts[k] == Alternative(table[chosen[k]].0, AltConfidence(scores[chosen[k]]))
  {
    hide Ranked, BestTwo;
    alts := [];
    ghost var cs := [];
    for k := 0 to |rank|
      invariant cs == Candidates(table, scores, d, rank[..k]) && |cs| == |alts|
      invariant forall a | 0 <= a < |cs| ::
                  cs[a] < |table| && alts[a] == Alternative(table[cs[a]].0, AltConfidence(scores[cs[a]]))
    {
      assert rank[..k + 1][..k] == rank[..k];
      assert rank[k] in rank;
      if table[rank[k]].0 != d && scores[rank[k]] > 0 {
        alts := alts + [Alternative(table[rank[k]].0, AltConfidence(scores[rank[k]]))];
        cs := cs + [rank[k]];
      } else {
        assert cs + [] == cs;
      }
    }
    assert rank[..|rank|] == rank;
    CandidatesKeepOrder(table, scores, d, rank);
    CandidatesAreChosen(table, scores, d, rank);
    FirstTwoAreBest(table, scores, d, cs);
    chosen := if |cs| <= 2 then cs else cs[..2];
    alts := if |alts| <= 2 then alts else alts[..2];
  }

  // ----- the classifier

  /** `url` is absent or says which fragments it contains; `found` says which keywords the text contains. */
  method ClassifyDocument(patterns: seq<(string, DocType)>, table: Table, url: Option<string -> bool>,
                          found: string -> bool)
    returns (docType: DocType, confidence: real, alts: seq<Alternative>,
             ghost urlMatch: Option<DocType>, ghost textMatch: Option<nat>, ghost chosen: seq<nat>)
    ensures urlMatch == None || (url.Some? && IsUrlMatch(patterns, url.value, urlMatch))
    ensures url.Some? && urlMatch == None ==> IsUrlMatch(patterns, url.value, None)
    ensures var scores := Scores(table, found);
            && IsTextMatch(scores, textMatch)
            && BestTwo(table, scores, docType, chosen) && |alts| == |chosen|
            && forall k | 0 <= k < |alts| ::
                 chosen[k] < |table| && alts[k] == Alternative(table[chosen[k]].0, AltConfidence(scores[chosen[k]]))
    // The text decides when it matches anything, the URL otherwise; agreement raises the confidence.
    ensures textMatch.Some? ==>
              textMatch.value < |table| && docType == table[textMatch.value].0
              && confidence == if urlMatch == Some(docType) then 0.94 else 0.80
    ensures textMatch.None? && urlMatch.Some? ==> docType == urlMatch.value && confidence == 0.75
    ensures textMatch.None? && urlMatch.None? ==> docType == Other && confidence == 0.40
    // Alternatives come with a sure first choice, and their own confidence falls and stays low.
    ensures alts != [] ==> confidence >= 0.80
    ensures |alts| <= 2 && forall k | 0 <= k < |alts| ::
              var tenth := Scores(table, found)[chosen[k]] as real * 0.1;
              alts[k].confidence == if tenth < 0.5 then tenth else 0.5
    ensures forall k | 0 <= k < |alts| :: 0.0 < alts[k].confidence <= 0.5 && alts[k].docType != docType
    ensures |alts| == 2 ==> alts[1].confidence <= alts[0].confidence
  {
    hide Score, Scores, IsUrlMatch, IsTextMatch;
    var byUrl := None;
    if url.Some? {
      byUrl := FindUrlMatch(patterns, url.value);
    }
    var scores := KeywordScores(table, found);
    assert scores == Scores(table, found);
    var rank := Rank(scores, |scores|);
    RankIsFull(scores, rank);
    var byText := None;
    if rank != [] && scores[rank[0]] > 0 {
      byText := Some(rank[0]);
    }
    TopIsTextMatch(scores, rank);
    confidence, docType := 0.40, Other;
    if byUrl.Some? && byText.Some? && byUrl.value == table[byText.value].0 {
      docType, confidence := byUrl.value, 0.94;
    } else if byText.Some? {
      docType, confidence := table[byText.value].0, 0.80;
    } else if byUrl.Some? {
      docType, confidence := byUrl.value, 0.75;
    }
    alts, chosen := CollectAlternatives(table, scores, docType, rank);
    urlMatch, textMatch := byUrl, byText;
    if alts != [] {
      assert chosen[0] in chosen && scores[chosen[0]] > 0;
    }
    forall k | 0 <= k < |alts|
      ensures 0.0 < alts[k].confidence <= 0.5 && alts[k].docType != docType
    {
      assert chosen[k] in chosen;
    }
  }

  function Scores(table: Table, found: string -> bool): (s: seq<nat>)
    ensures |s| == |table| && forall i | 0 <= i < |s| :: s[i] == Score(table[i].1, found)
  {
    if table == [] then []
    else Scores(table[..|table| - 1], found) + [Score(table[|table| - 1].1, found)]
  }

  lemma RankIsFull(scores: seq<nat>, rank: seq<nat>)
    requires forall i: nat :: i in rank <==> i < |scores|
    ensures rank == [] <==> scores == []
  {
    if rank != [] {
      assert rank[0] in rank;
    }
    if scores != [] {
      assert 0 in rank;
    }
  }

  lemma TopIsTextMatch(scores: seq<nat>, rank: seq<nat>)
    requires Ranked(scores, rank) && forall i: nat :: i in rank <==> i < |scores|
    ensures IsTextMatch(scores, if rank != [] && scores[rank[0]] > 0 then Some(rank[0]) else None)
  {
    forall j: nat | j < |scores|
      ensures rank != [] && (j == rank[0] || Before(scores, rank[0], j)) && scores[j] <= scores[rank[0]]
    {
      assert j in rank;
      var k :| 0 <= k < |rank| && rank[k] == j;
      assert k > 0 ==> Before(scores, rank[0], rank[k]);
    }
  }

  // ----- the service's own tables

  predicate NamesTypes(patterns: seq<(string, DocType)>, table: Table) {
    && (forall i, j | 0 <= i < j < |table| :: table[i].0 != table[j].0)
    && (forall k | 0 <= k < |patterns| :: patterns[k].1 != Other)
    && (forall i | 0 <= i < |table| :: table[i].0 != Other)
  }

  /** Entry `i` scores at least as much as every other, and more than every earlier one. */
  predicate TopEntry(table: Table, found: string -> bool, i: nat)
    requires i < |table|
  {
    && Score(table[i].1, found) > 0
    && (forall j | 0 <= j < |table| :: Score(table[j].1, found) <= Score(table[i].1, found))
    && (forall j | 0 <= j < i :: Score(table[j].1, found) < Score(table[i].1, found))
  }

  predicate NothingMatches(patterns: seq<(string, DocType)>, table: Table, url: Option<string -> bool>,
                           found: string -> bool) {
    && (forall i | 0 <= i < |table| :: Score(table[i].1, found) == 0)
    && (url.Some? ==> forall k | 0 <= k < |patterns| :: !url.value(patterns[k].0))
  }

  /** `Other` comes out exactly when nothing matches; a text that matches decides on the enum's first type
      among those scoring highest, whatever the URL says, and the confidence tells the cases apart. */
  ghost predicate Decision(patterns: seq<(string, DocType)>, table: Table, url: Option<string -> bool>,
                           found: string -> bool, docType: DocType, confidence: real, alts: seq<Alternative>) {
    && (docType == Other <==> NothingMatches(patterns, table, url, found))
    && (confidence >= 0.80 <==> exists i :: 0 <= i < |table| && Score(table[i].1, found) > 0)
    && (confidence >= 0.80 ==> exists i: nat :: i < |table| && TopEntry(table, found, i) && docType == table[i].0)
    && (confidence == 0.94 ==> url.Some? && IsUrlMatch(patterns, url.value, Some(docType)))
    && (forall k | 0 <= k < |alts| :: alts[k].docType !in {docType, Other} && alts[k].confidence <= 0.5)
  }

  lemma TextMatchIsTop(table: Table, found: string -> bool, m: Option<nat>)
    requires IsTextMatch(Scores(table, found), m)
    ensures m.Some? ==> m.value < |table| && TopEntry(table, found, m.value)
    ensures m.Some? <==> exists i :: 0 <= i < |table| && Score(table[i].1, found) > 0
  {
    hide Score, Scores;
    var scores := Scores(table, found);
    forall j | 0 <= j < |table|
      ensures match m
              case None => Score(table[j].1, found) == 0
              case Some(b) => Score(table[j].1, found) <= Score(table[b].1, found)
                              && (j < b ==> Score(table[j].1, found) < Score(table[b].1, found))
    {
      assert scores[j] == Score(table[j].1, found);
      assert m.Some? && j != m.value ==> Before(scores, m.value, j);
    }
  }

  /** Of all keywords, exactly `a` of entry `i` and `b` of entry `j` are found. */
  predicate OnlyFound(table: Table, found: string -> bool, i: nat, a: nat, j: nat, b: nat) {
    && i < |table| && a < |table[i].1| && j < |table| && b < |table[j].1| && i != j
    && forall t, u | 0 <= t < |table| && 0 <= u < |table[t].1| ::
         found(table[t].1[u]) <==> (t == i && u == a) || (t == j && u == b)
  }

  lemma {:induction false} OneFound(words: seq<string>, found: string -> bool, a: nat)
    requires forall u | 0 <= u < |words| :: found(words[u]) <==> u == a
    ensures Score(words, found) == if a < |words| then |words[a]| else 0
    decreases |words|
  {
    if words == [] {
    } else {
      OneFound(words[..|words| - 1], found, a);
    }
  }

  lemma TwoScores(table: Table, found: string -> bool, i: nat, a: nat, j: nat, b: nat)
    requires OnlyFound(table, found, i, a, j, b)
    ensures var scores := Scores(table, found);
            && scores[i] == |table[i].1[a]| && scores[j] == |table[j].1[b]|
            && forall t | 0 <= t < |scores| && t != i && t != j :: scores[t] == 0
  {
    hide Score, Scores;
    OneFound(table[i].1, found, a);
    OneFound(table[j].1, found, b);
    forall t | 0 <= t < |table| && t != i && t != j
      ensures Score(table[t].1, found) == 0
    {
      OneFound(table[t].1, found, |table[t].1|);
    }
  }

  lemma LongerIsChosen(table: Table, scores: seq<nat>, i: nat, j: nat, m: Option<nat>, chosen: seq<nat>)
    requires |scores| == |table| && i < |table| && j < |table| && scores[i] > scores[j] > 0
    requires table[i].0 != table[j].0 && forall t | 0 <= t < |scores| && t != i && t != j :: scores[t] == 0
    requires IsTextMatch(scores, m)
    ensures m == Some(i)
    ensures BestTwo(table, scores, table[i].0, chosen) ==> chosen == [j]
  {
    assert m.Some? && m.value != i ==> Before(scores, m.value, i);
    if BestTwo(table, scores, table[i].0, chosen) {
      assert Candidate(table, scores, table[i].0, j);
      forall k | 0 <= k < |chosen|
        ensures chosen[k] == j
      {
        assert chosen[k] in chosen && Candidate(table, scores, table[i].0, chosen[k]);
      }
      assert |chosen| >= 2 ==> Before(scores, chosen[0], chosen[1]);
    }
  }

  /** Two keywords of two types, and nothing else: the type of the longer keyword is the answer, and the other
      one the only alternative, a tenth of its keyword's length sure but at most half. */
  ghost predicate LongerKeywordWins(table: Table, found: string -> bool, docType: DocType, confidence: real,
                                    alts: seq<Alternative>) {
    forall i: nat, a: nat, j: nat, b: nat |
      OnlyFound(table, found, i, a, j, b) && |table[i].1[a]| > |table[j].1[b]| > 0 ::
      && docType == table[i].0 && (confidence == 0.80 || confidence == 0.94)
      && var tenth := |table[j].1[b]| as real * 0.1;
      alts == [Alternative(table[j].0, if tenth < 0.5 then tenth else 0.5)]
  }

  method Decide(patterns: seq<(string, DocType)>, table: Table, url: Option<string -> bool>, found: string -> bool)
    returns (docType: DocType, confidence: real, alts: seq<Alternative>)
    requires NamesTypes(patterns, table)
    ensures Decision(patterns, table, url, found, docType, confidence, alts)
    ensures LongerKeywordWins(table, found, docType, confidence, alts)
  {
    hide Score, Scores, BestTwo, Ranked, TopEntry, AltConfidence;
    ghost var urlMatch, textMatch, chosen;
    docType, confidence, alts, urlMatch, textMatch, chosen := ClassifyDocument(patterns, table, url, found);
    TextMatchIsTop(table, found, textMatch);
    forall i: nat, a: nat, j: nat, b: nat |
      OnlyFound(table, found, i, a, j, b) && |table[i].1[a]| > |table[j].1[b]| > 0
      ensures textMatch == Some(i) && chosen == [j] && Scores(table, found)[j] == |table[j].1[b]|
    {
      TwoScores(table, found, i, a, j, b);
      LongerIsChosen(table, Scores(table, found), i, j, textMatch, chosen);
    }
  }

  lemma OwnTablesNameTypes()
    ensures NamesTypes(URL_PATTERNS, KEYWORDS)
  {
    forall i, j | 0 <= i < j < |KEYWORDS|
      ensures KEYWORDS[i].0 != KEYWORDS[j].0
    {
      KeywordsFollowEnum(i);
      KeywordsFollowEnum(j);
    }
  }

  method Classify(url: Option<string -> bool>, found: string -> bool)
    returns (docType: DocType, confidence: real, alts: seq<Alternative>)
    ensures Decision(URL_PATTERNS, KEYWORDS, url, found, docType, confidence, alts)
    ensures LongerKeywordWins(KEYWORDS, found, docType, confidence, alts)
  {
    hide Decision, LongerKeywordWins, NamesTypes;
    OwnTablesNameTypes();
    docType, confidence, alts := Decide(URL_PATTERNS, KEYWORDS, url, found);
  }
}
