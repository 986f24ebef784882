/** The bundled dataset (`sampleData`): three categories, sixteen problems
    and a small flow below `prob16` and `prob1`, and what the store and the
    graph view do with it. */
module SampleData {
  import opened Optional
  import opened Types
  import opened Hierarchy

  function Node(id: string, kind: ElementType, title: string, parent: Option<string>): Element {
    Element(id, kind, title, parent, None, None, None, None)
  }

  function Flow(id: string, kind: ElementType, title: string, parent: string, next: seq<string>): Element {
    Element(id, kind, title, Some(parent), Some(next), None, None, None)
  }

  // Titles longer than 32 characters are written in pieces split before a
  // space, so that no proof has to read a long string literal at once.
  const Cat1: Element := Node("cat1", Categorie, "PROBLEME DE FONCTIONNEMENT" + " GENERAL", None)
  const Cat2: Element := Node("cat2", Categorie, "PROBLEME DE " + "PRESSION", None)
  const Cat3: Element := Node("cat3", Categorie, "PROBLEME DE CHAUFFE", None)
  const Prob1: Element := Node("prob1", Probleme, "LA MACHINE NE DEMARRE PAS", Some("cat1"))
  const Prob2: Element := Node("prob2", Probleme, "PROGRAMMATEUR EN ERREUR (affiche" + " ERR ou symboles)", Some("cat1"))
  const Prob3: Element := Node("prob3", Probleme, "PROGRAMMATEUR ne s'allume pas ou" + " clignote", Some("cat1"))
  const Prob4: Element := Node("prob4", Probleme, "PLUS DE CONSOMMATION" + " D'ANTICALCAIRE", Some("cat1"))
  const Prob5: Element := Node("prob5", Probleme, "DEBORDEMENT DU BAC ANTICALCAIRE", Some("cat1"))
  const Prob6: Element := Node("prob6", Probleme, "PAS DE " + "PRESSION" + (" AU MANO (LA POMPE NE TOURNE" + " PAS) ALORS QU'ON APPUIE SUR LA" + " GACHETTE"), Some("cat2"))
  const Prob7: Element := Node("prob7", Probleme, "IMPOSSIBLE DE MONTER EN " + "PRESSION" + (" SORTIE DE POMPE (AU MANO) ET LE" + " MOTEUR TOURNE"), Some("cat2"))
  const Prob8: Element := Node("prob8", Probleme, "PRESSION" + (" OK AU MANO MAIS PAS OU PEU DE" + " SORTIE D'EAU AUX ACCESSOIRES"), Some("cat2"))
  const Prob9: Element := Node("prob9", Probleme, "PRESSION" + " SACCADEE", Some("cat2"))
  const Prob10: Element := Node("prob10", Probleme, "LA POMPE NE S'ARRETE PAS (1" + " MINUTE MAX APRES ARRET DE LA" + " GACHETTE)", Some("cat2"))
  const Prob11: Element := Node("prob11", Probleme, "LA MACHINE NE CHAUFFE PLUS" + " VOYANT VERT ALLUME", Some("cat3"))
  const Prob12: Element := Node("prob12", Probleme, "LA MACHINE NE CHAUFFE PLUS" + " VOYANT VERT RESTE ETEINT", Some("cat3"))
  const Prob13: Element := Node("prob13", Probleme, "LA MACHINE NE CHAUFFE PAS ASSEZ", Some("cat3"))
  const Prob14: Element := Node("prob14", Probleme, "VOYANT VERT S'ETEINT JUSQU'A UNE" + " TEMPERATURE RELATIVEMENT BASSE", Some("cat3"))
  const Prob15: Element := Node("prob15", Probleme, "LA MACHINE MONTE TROP EN" + " TEMPERATURE", Some("cat3"))
  const Prob16: Element := Flow("prob16", Probleme, "LA MACHINE FUME BEAUCOUP", "cat3", ["etatA", "etatB"])
  const EtatA: Element := Node("etatA", Etat, "PAS DE MELANGE DE CARBURANT", Some("prob16"))
  const EtatB: Element := Flow("etatB", Etat, "MELANGE DE CARBURANT", "prob16", ["action1"])
  const Action1: Element := Node("action1", Action, "FAIRE UNE VIDANGE COMPLETE DU" + " CIRCUIT, CHANGER LE MELANGE", Some("etatB"))
  const Etat1: Element := Flow("etat1", Etat, "Le moteur de la pompe ne tourne" + " pas ET le programmateur est" + " éteint", "prob1", ["verif1"])
  const Etat2: Element := Flow("etat2", Etat, "Le moteur de la pompe ne tourne" + " pas ET le programmateur est" + " allumé", "prob1", ["prob5"])
  const Etat3: Element := Flow("etat3", Etat, "Le moteur de la pompe tourne ET" + " le programmateur est éteint", "prob1", ["prob4"])

  const Sample: seq<Element> := [
    Cat1, Cat2, Cat3, Prob1, Prob2, Prob3,
    Prob4, Prob5, Prob6, Prob7, Prob8, Prob9,
    Prob10, Prob11, Prob12, Prob13, Prob14, Prob15,
    Prob16, EtatA, EtatB, Action1, Etat1, Etat2,
    Etat3
  ]

  /** The ids of the dataset, in order. */
  const SampleIds: seq<string> := ["cat1", "cat2", "cat3", "prob1", "prob2", "prob3", "prob4", "prob5", "prob6", "prob7", "prob8", "prob9", "prob10", "prob11", "prob12", "prob13", "prob14", "prob15", "prob16", "etatA", "etatB", "action1", "etat1", "etat2", "etat3"]

  lemma SampleIdsInOrder()
    ensures Ids(Sample) == SampleIds
  {
  }

  /** A cheap fingerprint of an id: its length, first and last character.
      The dataset's ids already differ in it. */
  function Signature(s: string): int {
    if |s| == 0 then 0 else |s| * 1000000 + s[0] as int * 1000 + s[|s| - 1] as int
  }

  /** The fingerprints of the dataset's ids in increasing order, the rank
      of each position's fingerprint in that order, and the position
      holding each rank. */
  const SortedSignatures: seq<int> := [
    4099049, 4099050, 4099051, 5101049, 5101050, 5101051, 5101065, 5101066, 5112049,
    5112050, 5112051, 5112052, 5112053, 5112054, 5112055, 5112056, 5112057, 6112048,
    6112049, 6112050, 6112051, 6112052, 6112053, 6112054, 7097049
  ]
  const SignatureRank: seq<nat> := [
    0, 1, 2, 8, 9, 10, 11, 12, 13, 14, 15, 16, 17, 18, 19, 20, 21, 22, 23, 6, 7, 24, 3, 4, 5
  ]
  const RankPosition: seq<nat> := [
    0, 1, 2, 22, 23, 24, 19, 20, 3, 4, 5, 6, 7, 8, 9, 10, 11, 12, 13, 14, 15, 16, 17, 18, 21
  ]

  /** Position `i` holds an id whose fingerprint has rank
      `SignatureRank[i]`, and that rank points back to `i`. */
  predicate RankedAt(i: nat) {
    && i < |SampleIds| && i < |SignatureRank|
    && SignatureRank[i] < |SortedSignatures| && SignatureRank[i] < |RankPosition|
    && Signature(SampleIds[i]) == SortedSignatures[SignatureRank[i]]
    && RankPosition[SignatureRank[i]] == i
  }

  lemma RankedCategoriesAndFirstProblems() ensures forall i :: 0 <= i < 9 ==> RankedAt(i) {}
  lemma RankedMiddleProblems() ensures forall i :: 9 <= i < 17 ==> RankedAt(i) {}
  lemma RankedRest() ensures forall i :: 17 <= i < 25 ==> RankedAt(i) {}

  lemma SignaturesRanked()
    ensures |SampleIds| == 25
    ensures forall i :: 0 <= i < |SampleIds| ==> RankedAt(i)
  {
    RankedCategoriesAndFirstProblems();
    RankedMiddleProblems();
    RankedRest();
  }

  lemma SignaturesIncreasing()
    ensures forall k :: 0 <= k < |SortedSignatures| - 1 ==> SortedSignatures[k] < SortedSignatures[k + 1]
  {
  }

  /** A sequence increasing step by step is increasing. */
  lemma {:induction false} StepwiseIncreasing(s: seq<int>, a: nat, b: nat)
    requires forall k :: 0 <= k < |s| - 1 ==> s[k] < s[k + 1]
    requires a < b < |s|
    ensures s[a] < s[b]
    decreases b - a
  {
    if a + 1 < b {
      StepwiseIncreasing(s, a + 1, b);
    }
  }

  /** All 25 ids of the dataset are distinct. */
  lemma SampleIdsDistinct()
    ensures |Sample| == 25
    ensures UniqueIds(Sample)
  {
    SampleIdsInOrder();
    SignaturesRanked();
    SignaturesIncreasing();
    forall i, j | 0 <= i < |Sample| && 0 <= j < |Sample| && Sample[i].id == Sample[j].id
      ensures i == j
    {
      assert Ids(Sample)[i] == Ids(Sample)[j];
      assert RankedAt(i) && RankedAt(j);
      var ri, rj := SignatureRank[i], SignatureRank[j];
      if ri < rj {
        StepwiseIncreasing(SortedSignatures, ri, rj);
      } else if rj < ri {
        StepwiseIncreasing(SortedSignatures, rj, ri);
      }
    }
  }

  /** How deep each kind sits in the dataset's hierarchy. */
  function KindLevel(k: ElementType): nat {
    match k
    case Categorie => 0
    case Probleme => 1
    case Etat => 2
    case Verif => 3
    case Action => 3
  }

  /** The position of each element's parent, -1 for the roots. */
  const ParentAt: seq<int> := [-1, -1, -1, 0, 0, 0, 0, 0, 1, 1, 1, 1, 1, 2, 2, 2, 2, 2, 2, 18, 18, 20, 3, 3, 3]

  /** Position `i` is a root, or its parent is the element at
      `ParentAt[i]`, whose kind sits higher. */
  predicate ParentListedAt(i: nat) {
    && i < |Sample| && i < |ParentAt|
    && (ParentAt[i] < 0 ==> Sample[i].parent == None)
    && (ParentAt[i] >= 0 ==>
          && ParentAt[i] < |Sample|
          && Sample[i].parent == Some(Sample[ParentAt[i]].id)
          && KindLevel(Sample[ParentAt[i]].kind) < KindLevel(Sample[i].kind))
  }

  lemma ParentsOfCategoriesAndFirstProblems() ensures forall i :: 0 <= i < 9 ==> ParentListedAt(i) {}
  lemma ParentsOfMiddleProblems() ensures forall i :: 9 <= i < 17 ==> ParentListedAt(i) {}
  lemma ParentsOfRest() ensures forall i :: 17 <= i < 25 ==> ParentListedAt(i) {}

  lemma ParentsListed()
    ensures |Sample| == 25
    ensures forall i :: 0 <= i < |Sample| ==> ParentListedAt(i)
  {
    ParentsOfCategoriesAndFirstProblems();
    ParentsOfMiddleProblems();
    ParentsOfRest();
  }

  /** The rank that proves the dataset's hierarchy acyclic: the level of
      the kind of the element holding an id. */
  function SampleRank(x: string): nat {
    match Find(Sample, x)
    case None => 0
    case Some(e) => KindLevel(e.kind)
  }

  /** The dataset has unique ids and an acyclic parent relation. */
  lemma SampleWellFormed()
    ensures WellFormed(Sample)
  {
    SampleIdsDistinct();
    ParentsListed();
    forall y | y in IdSet(Sample) && Up(Sample, y).Some?
      ensures SampleRank(Up(Sample, y).value) < SampleRank(y)
    {
      var e :| e in Sample && e.id == y;
      var i :| 0 <= i < |Sample| && Sample[i] == e;
      assert ParentListedAt(i);
      FindUnique(Sample, e);
      FindUnique(Sample, Sample[ParentAt[i]]);
    }
    RankedAcyclic(Sample, SampleRank);
  }
}
