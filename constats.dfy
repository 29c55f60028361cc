/**
 * A three-intersection map on which the failure exit of the shortest-path
 * computation, as written, corrupts the next computation, and on which the
 * corrected computation does not.
 */
module Constats {
  import opened Graphe
  import opened Planification

  /** Intersections 1, 2 and 3; a single segment of length 5 goes from 1 to 2. */
  function CarteExemple(): Carte {
    map[1 := Intersection(1, [Segment(1, 2, 5)]), 2 := Intersection(2, []), 3 := Intersection(3, [])]
  }

  lemma ExempleBienFormee()
    ensures CarteBienFormee(CarteExemple())
  {
  }

  /** 2 is reached from 1; nothing leaves {1, 2}, and nothing leaves 2. */
  lemma ExempleAtteignabilite()
    ensures Atteignable(CarteExemple(), 1, 2)
    ensures !Atteignable(CarteExemple(), 1, 3)
    ensures !Atteignable(CarteExemple(), 2, 1)
  {
    var c := CarteExemple();
    assert EstChemin(c, [Segment(1, 2, 5)][1..], 2, 2);
    assert EstChemin(c, [Segment(1, 2, 5)], 1, 2);
    forall p | EstChemin(c, p, 1, 3) ensures false {
      FermeContientAtteint(c, p, 1, 3, {1, 2});
    }
    forall p | EstChemin(c, p, 2, 1) ensures false {
      FermeContientAtteint(c, p, 2, 1, {2});
    }
  }

  /**
   * As written: a call on [1, 3] fails from 1 because 3 is out of reach, and
   * leaves 1 and 2 with distances. The next call, on [2, 1], takes the stale
   * distance of 1 for a path from 2, succeeds, and records a route from 2 to 1
   * although no path joins them.
   */
  method ConstatEtatResiduel() returns (p: Planning, premier: bool, second: bool)
    ensures !premier && second
    ensures (2, 1) in p.trajetsLesPlusCourts && !Atteignable(p.carte, 2, 1)
    ensures !TableJuste(p.carte, p.trajetsLesPlusCourts)
  {
    ExempleBienFormee();
    ExempleAtteignabilite();
    var c := CarteExemple();
    p := new Planning(c);
    ghost var f1;
    premier, f1 := p.CalculerLesTrajetsLesPlusCourtsTelQuEcrit([1, 3]);
    ReussitDepuisPropre(c, [1, 3]);
    assert !ToutAtteignable(c, [1, 3]) by {
      assert 1 in [1, 3] && 3 in [1, 3];
    }
    assert !SourceReussie(c, map[], [1, 3], 0) by {
      assert 3 in [1, 3];
    }
    assert f1 == 0;
    CheminVide(c, 1);
    CheminVide(c, 2);
    assert 1 in p.distance;
    ghost var d1 := p.distance;
    ghost var f2;
    second, f2 := p.CalculerLesTrajetsLesPlusCourtsTelQuEcrit([2, 1]);
    assert SourceReussie(c, d1, [2, 1], 0);
    assert SourceReussie(c, d1, [2, 1], 1);
    assert (2, 1) in p.trajetsLesPlusCourts by {
      assert 2 in [2, 1] && 1 in [2, 1];
    }
  }

  /** Corrected: with the reset before the failure exit, both calls fail, and the table stays right. */
  method ConstatCorrige() returns (p: Planning, premier: bool, second: bool)
    ensures !premier && !second
    ensures p.Valid()
  {
    ExempleBienFormee();
    ExempleAtteignabilite();
    var c := CarteExemple();
    p := new Planning(c);
    premier := p.CalculerLesTrajetsLesPlusCourts([1, 3]);
    assert 1 in [1, 3] && 3 in [1, 3];
    second := p.CalculerLesTrajetsLesPlusCourts([2, 1]);
    assert 2 in [2, 1] && 1 in [2, 1];
  }
}
