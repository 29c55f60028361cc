/**
 * The road network the planning works on: intersections, directed segments
 * with non-negative lengths, paths, reachability and shortest paths.
 * The network is read-only for the planning; it is loaded elsewhere.
 */
module Graphe {

  /** A directed road segment; its length is a natural number of metres. */
  datatype Segment = Segment(origine: int, arrivee: int, longueur: nat)

  /** An intersection with the segments that leave it. */
  datatype Intersection = Intersection(id: int, segmentsPartants: seq<Segment>)

  /** The map: intersections keyed by their id. */
  type Carte = map<int, Intersection>

  /** A route between two intersections: its segments and its total weight. */
  datatype Trajet = Trajet(chemin: seq<Segment>, poids: nat)

  /** Every key names its own intersection and every segment leaves it for a known intersection. */
  ghost predicate CarteBienFormee(carte: Carte) {
    forall k :: k in carte ==>
      carte[k].id == k &&
      forall seg :: seg in carte[k].segmentsPartants ==> seg.origine == k && seg.arrivee in carte
  }

  /** `p` follows segments of the map from `s` to `t`. */
  ghost predicate EstChemin(carte: Carte, p: seq<Segment>, s: int, t: int)
    decreases |p|
  {
    s in carte &&
    if p == [] then s == t
    else p[0] in carte[s].segmentsPartants && EstChemin(carte, p[1..], p[0].arrivee, t)
  }

  /** Sum of the lengths of the segments of `p`. */
  function Poids(p: seq<Segment>): nat {
    if p == [] then 0 else p[0].longueur + Poids(p[1..])
  }

  ghost predicate Atteignable(carte: Carte, s: int, t: int) {
    exists p :: EstChemin(carte, p, s, t)
  }

  /** `tr` is a path from `s` to `t`, its weight is its length, and no path is shorter. */
  ghost predicate PlusCourt(carte: Carte, s: int, t: int, tr: Trajet) {
    EstChemin(carte, tr.chemin, s, t) && tr.poids == Poids(tr.chemin) &&
    forall p :: EstChemin(carte, p, s, t) ==> tr.poids <= Poids(p)
  }

  /** Every entry of a table keyed by (source, target) is a shortest path. */
  ghost predicate TableJuste(carte: Carte, table: map<(int, int), Trajet>) {
    forall k :: k in table ==> PlusCourt(carte, k.0, k.1, table[k])
  }

  lemma {:induction false} ConcatChemins(carte: Carte, p: seq<Segment>, q: seq<Segment>, s: int, m: int, t: int)
    requires EstChemin(carte, p, s, m) && EstChemin(carte, q, m, t)
    ensures EstChemin(carte, p + q, s, t)
    ensures Poids(p + q) == Poids(p) + Poids(q)
    decreases |p|
  {
    if p == [] {
      assert p + q == q;
    } else {
      ConcatChemins(carte, p[1..], q, p[0].arrivee, m, t);
      assert (p + q)[0] == p[0];
      assert (p + q)[1..] == p[1..] + q;
    }
  }

  /** Extending a path by one segment leaving its end. */
  lemma AjoutSegment(carte: Carte, p: seq<Segment>, s: int, m: int, seg: Segment)
    requires CarteBienFormee(carte)
    requires m in carte && EstChemin(carte, p, s, m) && seg in carte[m].segmentsPartants
    ensures EstChemin(carte, p + [seg], s, seg.arrivee)
    ensures Poids(p + [seg]) == Poids(p) + seg.longueur
  {
    assert seg.arrivee in carte;
    assert EstChemin(carte, [seg][1..], seg.arrivee, seg.arrivee);
    assert EstChemin(carte, [seg], m, seg.arrivee);
    ConcatChemins(carte, p, [seg], s, m, seg.arrivee);
  }

  /** The empty path joins every intersection of the map to itself. */
  lemma CheminVide(carte: Carte, s: int)
    requires s in carte
    ensures EstChemin(carte, [], s, s) && Atteignable(carte, s, s)
  {
    assert EstChemin(carte, [], s, s);
  }

  /** Two shortest paths for the same pair have the same weight. */
  lemma PoidsMinimalUnique(carte: Carte, s: int, t: int, a: Trajet, b: Trajet)
    requires PlusCourt(carte, s, t, a) && PlusCourt(carte, s, t, b)
    ensures a.poids == b.poids
  {
  }

  /** Shortest-path weights obey the triangle inequality. */
  lemma InegaliteTriangulaire(carte: Carte, a: int, b: int, c: int, ab: Trajet, bc: Trajet, ac: Trajet)
    requires PlusCourt(carte, a, b, ab) && PlusCourt(carte, b, c, bc) && PlusCourt(carte, a, c, ac)
    ensures ac.poids <= ab.poids + bc.poids
  {
    ConcatChemins(carte, ab.chemin, bc.chemin, a, b, c);
  }

  /** Every one of the given intersections can be reached from `s`. */
  ghost predicate AtteintTout(carte: Carte, s: int, noeuds: seq<int>) {
    forall t :: t in noeuds ==> Atteignable(carte, s, t)
  }

  /** Every ordered pair of the given intersections is joined by some path. */
  ghost predicate ToutAtteignable(carte: Carte, noeuds: seq<int>) {
    forall s, t {:trigger Atteignable(carte, s, t)} :: s in noeuds && t in noeuds ==> Atteignable(carte, s, t)
  }

  /**
   * A closed set of intersections: if every segment leaving `fixes` ends in
   * `fixes`, a path starting in `fixes` never leaves it.
   */
  lemma {:induction false} FermeContientAtteint(carte: Carte, p: seq<Segment>, x: int, v: int, fixes: set<int>)
    requires fixes <= carte.Keys
    requires forall y, seg :: y in fixes && seg in carte[y].segmentsPartants ==> seg.arrivee in fixes
    requires EstChemin(carte, p, x, v) && x in fixes
    ensures v in fixes
    decreases |p|
  {
    if p != [] {
      FermeContientAtteint(carte, p[1..], p[0].arrivee, v, fixes);
    }
  }

  /**
   * The search frontier. If every segment leaving `fixes` ends in `fixes` or
   * `ouverts`, and `dist` is relaxed along every such segment, then a path from
   * `x` in `fixes` to `v` outside it passes through an open intersection at most
   * `dist[x] + Poids(p)` away.
   */
  lemma {:induction false} FrontiereSurChemin(carte: Carte, p: seq<Segment>, x: int, v: int,
                                              fixes: set<int>, ouverts: set<int>, dist: map<int, nat>)
    requires fixes <= carte.Keys && fixes <= dist.Keys
    requires forall y, seg :: y in fixes && seg in carte[y].segmentsPartants ==> seg.arrivee in fixes || seg.arrivee in ouverts
    requires forall y, seg :: y in fixes && seg in carte[y].segmentsPartants ==>
               seg.arrivee in dist && dist[seg.arrivee] <= dist[y] + seg.longueur
    requires EstChemin(carte, p, x, v) && x in fixes && v !in fixes
    ensures exists u :: u in ouverts && u in dist && dist[u] <= dist[x] + Poids(p)
    decreases |p|
  {
    if p == [] {
    } else if p[0].arrivee !in fixes {
      assert p[0].arrivee in ouverts && dist[p[0].arrivee] <= dist[x] + Poids(p);
    } else {
      FrontiereSurChemin(carte, p[1..], p[0].arrivee, v, fixes, ouverts, dist);
    }
  }
}
