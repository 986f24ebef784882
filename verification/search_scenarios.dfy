/** Deciding `includes` on titles: a title that never has an `s` followed
    by an `i` cannot contain `pression`, one that holds `PRESSION` does. */
module Pairs {
  import opened Optional
  import opened Text
  import opened Types
  import opened Store

  /** No `a` directly followed by `b` in `s` once lower-cased. */
  predicate NoPair(s: string, a: char, b: char) {
    forall k :: 0 <= k < |s| - 1 ==> !(LowerChar(s[k]) == a && LowerChar(s[k + 1]) == b)
  }

  lemma NoPairConcat(x: string, y: string, a: char, b: char)
    requires NoPair(x, a, b) && NoPair(y, a, b) && |x| > 0 && |y| > 0
    requires !(LowerChar(x[|x| - 1]) == a && LowerChar(y[0]) == b)
    ensures NoPair(x + y, a, b)
  {
    forall k | 0 <= k < |x + y| - 1
      ensures !(LowerChar((x + y)[k]) == a && LowerChar((x + y)[k + 1]) == b)
    {
      if k + 1 < |x| {
        assert (x + y)[k] == x[k] && (x + y)[k + 1] == x[k + 1];
      } else if k + 1 == |x| {
        assert (x + y)[k] == x[k] && (x + y)[k + 1] == y[0];
      } else {
        assert (x + y)[k] == y[k - |x|] && (x + y)[k + 1] == y[k - |x| + 1];
      }
    }
  }

  lemma LowerPression()
    ensures Lower("pression") == "pression"
  {}

  /** An element whose title has no `si` and whose id is shorter than the
      query does not match `pression`. */
  lemma MissesPression(el: Element)
    requires NoPair(el.title, 's', 'i') && |el.id| < 8
    ensures !Matches(el, "pression")
  {
    LowerPression();
    var q, t := "pression", Lower(el.title);
    forall k ensures !OccursAt(q, t, k) {
      if 0 <= k <= |t| - |q| {
        assert t[k..k + |q|][4] == LowerChar(el.title[k + 4]);
        assert t[k..k + |q|][5] == LowerChar(el.title[k + 5]);
      }
    }
    ContainsIsSubstring(t, q);
    ContainsIsSubstring(Lower(el.id), q);
  }

  /** An element whose title holds `PRESSION` matches `pression`. */
  lemma HitsPression(el: Element, pre: string, post: string)
    requires el.title == pre + "PRESSION" + post
    ensures Matches(el, "pression")
  {
    LowerPression();
    var q, t := "pression", Lower(el.title);
    forall j | 0 <= j < |q| ensures t[|pre| + j] == q[j] {
      assert el.title[|pre| + j] == "PRESSION"[j];
    }
    assert OccursAt(q, t, |pre|);
    ContainsIsSubstring(t, q);
  }
}

/** Searching the bundled dataset for `pression`: which titles contain
    the query, and which cannot because they never have an `s` followed
    by an `i`. */
module SearchScenarios {
  import opened Optional
  import opened Text
  import opened Types
  import opened Store
  import opened SampleData
  import opened Pairs

  lemma Cat1Piece1()
    ensures NoPair("PROBLEME DE FONCTIONNEMENT", 's', 'i')
  {}

  lemma Cat1Piece2()
    ensures NoPair(" GENERAL", 's', 'i')
  {}

  lemma Cat1Misses()
    ensures !Matches(Cat1, "pression")
  {
    Cat1Piece1();
    Cat1Piece2();
    NoPairConcat("PROBLEME DE FONCTIONNEMENT", " GENERAL", 's', 'i');
    MissesPression(Cat1);
  }

  lemma Cat3Piece1()
    ensures NoPair("PROBLEME DE CHAUFFE", 's', 'i')
  {}

  lemma Cat3Misses()
    ensures !Matches(Cat3, "pression")
  {
    Cat3Piece1();
    MissesPression(Cat3);
  }

  lemma Prob1Piece1()
    ensures NoPair("LA MACHINE NE DEMARRE PAS", 's', 'i')
  {}

  lemma Prob1Misses()
    ensures !Matches(Prob1, "pression")
  {
    Prob1Piece1();
    MissesPression(Prob1);
  }

  lemma Prob2Piece1()
    ensures NoPair("PROGRAMMATEUR EN ERREUR (affiche", 's', 'i')
  {}

  lemma Prob2Piece2()
    ensures NoPair(" ERR ou symboles)", 's', 'i')
  {}

  lemma Prob2Misses()
    ensures !Matches(Prob2, "pression")
  {
    Prob2Piece1();
    Prob2Piece2();
    NoPairConcat("PROGRAMMATEUR EN ERREUR (affiche", " ERR ou symboles)", 's', 'i');
    MissesPression(Prob2);
  }

  lemma Prob3Piece1()
    ensures NoPair("PROGRAMMATEUR ne s'allume pas ou", 's', 'i')
  {}

  lemma Prob3Piece2()
    ensures NoPair(" clignote", 's', 'i')
  {}

  lemma Prob3Misses()
    ensures !Matches(Prob3, "pression")
  {
    Prob3Piece1();
    Prob3Piece2();
    NoPairConcat("PROGRAMMATEUR ne s'allume pas ou", " clignote", 's', 'i');
    MissesPression(Prob3);
  }

  lemma Prob4Piece1()
    ensures NoPair("PLUS DE CONSOMMATION", 's', 'i')
  {}

  lemma Prob4Piece2()
    ensures NoPair(" D'ANTICALCAIRE", 's', 'i')
  {}

  lemma Prob4Misses()
    ensures !Matches(Prob4, "pression")
  {
    Prob4Piece1();
    Prob4Piece2();
    NoPairConcat("PLUS DE CONSOMMATION", " D'ANTICALCAIRE", 's', 'i');
    MissesPression(Prob4);
  }

  lemma Prob5Piece1()
    ensures NoPair("DEBORDEMENT DU BAC ANTICALCAIRE", 's', 'i')
  {}

  lemma Prob5Misses()
    ensures !Matches(Prob5, "pression")
  {
    Prob5Piece1();
    MissesPression(Prob5);
  }

  lemma Prob10Piece1()
    ensures NoPair("LA POMPE NE S'ARRETE PAS (1", 's', 'i')
  {}

  lemma Prob10Piece2()
    ensures NoPair(" MINUTE MAX APRES ARRET DE LA", 's', 'i')
  {}

  lemma Prob10Piece3()
    ensures NoPair(" GACHETTE)", 's', 'i')
  {}

  lemma Prob10Misses()
    ensures !Matches(Prob10, "pression")
  {
    Prob10Piece1();
    Prob10Piece2();
    Prob10Piece3();
    NoPairConcat("LA POMPE NE S'ARRETE PAS (1", " MINUTE MAX APRES ARRET DE LA", 's', 'i');
    NoPairConcat("LA POMPE NE S'ARRETE PAS (1" + " MINUTE MAX APRES ARRET DE LA", " GACHETTE)", 's', 'i');
    MissesPression(Prob10);
  }

  lemma Prob11Piece1()
    ensures NoPair("LA MACHINE NE CHAUFFE PLUS", 's', 'i')
  {}

  lemma Prob11Piece2()
    ensures NoPair(" VOYANT VERT ALLUME", 's', 'i')
  {}

  lemma Prob11Misses()
    ensures !Matches(Prob11, "pression")
  {
    Prob11Piece1();
    Prob11Piece2();
    NoPairConcat("LA MACHINE NE CHAUFFE PLUS", " VOYANT VERT ALLUME", 's', 'i');
    MissesPression(Prob11);
  }

  lemma Prob12Piece1()
    ensures NoPair("LA MACHINE NE CHAUFFE PLUS", 's', 'i')
  {}

  lemma Prob12Piece2()
    ensures NoPair(" VOYANT VERT RESTE ETEINT", 's', 'i')
  {}

  lemma Prob12Misses()
    ensures !Matches(Prob12, "pression")
  {
    Prob12Piece1();
    Prob12Piece2();
    NoPairConcat("LA MACHINE NE CHAUFFE PLUS", " VOYANT VERT RESTE ETEINT", 's', 'i');
    MissesPression(Prob12);
  }

  lemma Prob13Piece1()
    ensures NoPair("LA MACHINE NE CHAUFFE PAS ASSEZ", 's', 'i')
  {}

  lemma Prob13Misses()
    ensures !Matches(Prob13, "pression")
  {
    Prob13Piece1();
    MissesPression(Prob13);
  }

  lemma Prob14Piece1()
    ensures NoPair("VOYANT VERT S'ETEINT JUSQU'A UNE", 's', 'i')
  {}

  lemma Prob14Piece2()
    ensures NoPair(" TEMPERATURE RELATIVEMENT BASSE", 's', 'i')
  {}

  lemma Prob14Misses()
    ensures !Matches(Prob14, "pression")
  {
    Prob14Piece1();
    Prob14Piece2();
    NoPairConcat("VOYANT VERT S'ETEINT JUSQU'A UNE", " TEMPERATURE RELATIVEMENT BASSE", 's', 'i');
    MissesPression(Prob14);
  }

  lemma Prob15Piece1()
    ensures NoPair("LA MACHINE MONTE TROP EN", 's', 'i')
  {}

  lemma Prob15Piece2()
    ensures NoPair(" TEMPERATURE", 's', 'i')
  {}

  lemma Prob15Misses()
    ensures !Matches(Prob15, "pression")
  {
    Prob15Piece1();
    Prob15Piece2();
    NoPairConcat("LA MACHINE MONTE TROP EN", " TEMPERATURE", 's', 'i');
    MissesPression(Prob15);
  }

  lemma Prob16Piece1()
    ensures NoPair("LA MACHINE FUME BEAUCOUP", 's', 'i')
  {}

  lemma Prob16Misses()
    ensures !Matches(Prob16, "pression")
  {
    Prob16Piece1();
    MissesPression(Prob16);
  }

  lemma EtatAPiece1()
    ensures NoPair("PAS DE MELANGE DE CARBURANT", 's', 'i')
  {}

  lemma EtatAMisses()
    ensures !Matches(EtatA, "pression")
  {
    EtatAPiece1();
    MissesPression(EtatA);
  }

  lemma EtatBPiece1()
    ensures NoPair("MELANGE DE CARBURANT", 's', 'i')
  {}

  lemma EtatBMisses()
    ensures !Matches(EtatB, "pression")
  {
    EtatBPiece1();
    MissesPression(EtatB);
  }

  lemma Action1Piece1()
    ensures NoPair("FAIRE UNE VIDANGE COMPLETE DU", 's', 'i')
  {}

  lemma Action1Piece2()
    ensures NoPair(" CIRCUIT, CHANGER LE MELANGE", 's', 'i')
  {}

  lemma Action1Misses()
    ensures !Matches(Action1, "pression")
  {
    Action1Piece1();
    Action1Piece2();
    NoPairConcat("FAIRE UNE VIDANGE COMPLETE DU", " CIRCUIT, CHANGER LE MELANGE", 's', 'i');
    MissesPression(Action1);
  }

  lemma Etat1Piece1()
    ensures NoPair("Le moteur de la pompe ne tourne", 's', 'i')
  {}

  lemma Etat1Piece2()
    ensures NoPair(" pas ET le programmateur est", 's', 'i')
  {}

  lemma Etat1Piece3()
    ensures NoPair(" éteint", 's', 'i')
  {}

  lemma Etat1Misses()
    ensures !Matches(Etat1, "pression")
  {
    Etat1Piece1();
    Etat1Piece2();
    Etat1Piece3();
    NoPairConcat("Le moteur de la pompe ne tourne", " pas ET le programmateur est", 's', 'i');
    NoPairConcat("Le moteur de la pompe ne tourne" + " pas ET le programmateur est", " éteint", 's', 'i');
    MissesPression(Etat1);
  }

  lemma Etat2Piece1()
    ensures NoPair("Le moteur de la pompe ne tourne", 's', 'i')
  {}

  lemma Etat2Piece2()
    ensures NoPair(" pas ET le programmateur est", 's', 'i')
  {}

  lemma Etat2Piece3()
    ensures NoPair(" allumé", 's', 'i')
  {}

  lemma Etat2Misses()
    ensures !Matches(Etat2, "pression")
  {
    Etat2Piece1();
    Etat2Piece2();
    Etat2Piece3();
    NoPairConcat("Le moteur de la pompe ne tourne", " pas ET le programmateur est", 's', 'i');
    NoPairConcat("Le moteur de la pompe ne tourne" + " pas ET le programmateur est", " allumé", 's', 'i');
    MissesPression(Etat2);
  }

  lemma Etat3Piece1()
    ensures NoPair("Le moteur de la pompe tourne ET", 's', 'i')
  {}

  lemma Etat3Piece2()
    ensures NoPair(" le programmateur est éteint", 's', 'i')
  {}

  lemma Etat3Misses()
    ensures !Matches(Etat3, "pression")
  {
    Etat3Piece1();
    Etat3Piece2();
    NoPairConcat("Le moteur de la pompe tourne ET", " le programmateur est éteint", 's', 'i');
    MissesPression(Etat3);
  }

  lemma Cat2Hits()
    ensures Matches(Cat2, "pression")
  {
    HitsPression(Cat2, "PROBLEME DE ", "");
  }

  lemma Prob6Hits()
    ensures Matches(Prob6, "pression")
  {
    HitsPression(Prob6, "PAS DE ", (" AU MANO (LA POMPE NE TOURNE" + " PAS) ALORS QU'ON APPUIE SUR LA" + " GACHETTE"));
  }

  lemma Prob7Hits()
    ensures Matches(Prob7, "pression")
  {
    HitsPression(Prob7, "IMPOSSIBLE DE MONTER EN ", (" SORTIE DE POMPE (AU MANO) ET LE" + " MOTEUR TOURNE"));
  }

  lemma Prob8Hits()
    ensures Matches(Prob8, "pression")
  {
    HitsPression(Prob8, "", (" OK AU MANO MAIS PAS OU PEU DE" + " SORTIE D'EAU AUX ACCESSOIRES"));
  }

  lemma Prob9Hits()
    ensures Matches(Prob9, "pression")
  {
    HitsPression(Prob9, "", " SACCADEE");
  }

  /** The titles and ids without `pression` in them, in collection order. */
  const Misses1: seq<Element> := [Cat1, Cat3]
  const Misses2: seq<Element> := [Prob1, Prob2]
  const Misses3: seq<Element> := [Prob3, Prob4]
  const Misses4: seq<Element> := [Prob5, Prob10]
  const Misses5: seq<Element> := [Prob11, Prob12]
  const Misses6: seq<Element> := [Prob13, Prob14]
  const Misses7: seq<Element> := [Prob15, Prob16]
  const Misses8: seq<Element> := [EtatA, EtatB]
  const Misses9: seq<Element> := [Action1, Etat1]
  const Misses10: seq<Element> := [Etat2, Etat3]
  const PressionMisses: seq<Element> :=
    Misses1 + Misses2 + Misses3 + Misses4 + Misses5 + Misses6 + Misses7 + Misses8 + Misses9 + Misses10

  lemma PressionMisses1()
    ensures forall e :: e in Misses1 ==> !Matches(e, "pression")
  {
    Cat1Misses(); Cat3Misses();
  }

  lemma PressionMisses2()
    ensures forall e :: e in Misses2 ==> !Matches(e, "pression")
  {
    Prob1Misses(); Prob2Misses();
  }

  lemma PressionMisses3()
    ensures forall e :: e in Misses3 ==> !Matches(e, "pression")
  {
    Prob3Misses(); Prob4Misses();
  }

  lemma PressionMisses4()
    ensures forall e :: e in Misses4 ==> !Matches(e, "pression")
  {
    Prob5Misses(); Prob10Misses();
  }

  lemma PressionMisses5()
    ensures forall e :: e in Misses5 ==> !Matches(e, "pression")
  {
    Prob11Misses(); Prob12Misses();
  }

  lemma PressionMisses6()
    ensures forall e :: e in Misses6 ==> !Matches(e, "pression")
  {
    Prob13Misses(); Prob14Misses();
  }

  lemma PressionMisses7()
    ensures forall e :: e in Misses7 ==> !Matches(e, "pression")
  {
    Prob15Misses(); Prob16Misses();
  }

  lemma PressionMisses8()
    ensures forall e :: e in Misses8 ==> !Matches(e, "pression")
  {
    EtatAMisses(); EtatBMisses();
  }

  lemma PressionMisses9()
    ensures forall e :: e in Misses9 ==> !Matches(e, "pression")
  {
    Action1Misses(); Etat1Misses();
  }

  lemma PressionMisses10()
    ensures forall e :: e in Misses10 ==> !Matches(e, "pression")
  {
    Etat2Misses(); Etat3Misses();
  }

  lemma PressionHits()
    ensures forall e :: e in [Cat2, Prob6, Prob7, Prob8, Prob9] ==> Matches(e, "pression")
  {
    Cat2Hits(); Prob6Hits(); Prob7Hits(); Prob8Hits(); Prob9Hits();
  }

  lemma SampleSplits()
    ensures forall e :: e in Sample ==> e in [Cat2, Prob6, Prob7, Prob8, Prob9] || e in PressionMisses
  {
  }

  /** A non-blank search finds exactly `hits` when every hit is an element
      that matches and every other element does not. */
  lemma SearchCovers(s: State, q: string, hits: seq<Element>)
    requires !Blank(q)
    requires forall e :: e in hits ==> e in s.elements && Matches(e, q)
    requires forall e :: e in s.elements && e !in hits ==> !Matches(e, q)
    ensures forall e :: e in Search(s, q) <==> e in hits
  {}

  /** Searching for `pression` finds exactly the category `cat2`, whose
      title is in capitals, and the problems `prob6` to `prob9`. */
  lemma SearchPression()
    ensures forall e :: e in Search(State(Sample, None), "pression") <==>
      e in [Cat2, Prob6, Prob7, Prob8, Prob9]
  {
    var hits := [Cat2, Prob6, Prob7, Prob8, Prob9];
    PressionHits();
    SampleSplits();
    PressionMisses1();
    PressionMisses2();
    PressionMisses3();
    PressionMisses4();
    PressionMisses5();
    PressionMisses6();
    PressionMisses7();
    PressionMisses8();
    PressionMisses9();
    PressionMisses10();
    assert !Blank("pression") by { assert !IsSpace("pression"[0]); }
    assert forall e :: e in hits ==> e in Sample;
    SearchCovers(State(Sample, None), "pression", hits);
  }
}
