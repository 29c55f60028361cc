/**
 * The invariants of the shortest-path search, stated on the values of the
 * scratch state (tentative distance and best path per intersection), and the
 * proof that one relaxation step keeps them. The planning's search loop uses
 * these lemmas at every step.
 */
module Recherche {
  import opened Graphe

  /** The best path recorded for `v`; an id with no entry has the empty path. */
  function CheminDans(ch: map<int, seq<Segment>>, v: int): seq<Segment> {
    if v in ch then ch[v] else []
  }

  /** Relaxing a segment of weight `w` from `s` to `e` shortens the tentative distance of `e`. */
  ghost predicate Ameliore(d: map<int, nat>, s: int, e: int, w: nat) {
    s in d && (e !in d || d[s] + w < d[e])
  }

  /**
   * What a search from `source` keeps true whatever the scratch state held
   * before it (`avant`, the ids that already had a distance): `fixes` are the
   * settled intersections, `ouverts` the unsettled ones.
   */
  ghost predicate ParcoursV(carte: Carte, d: map<int, nat>, source: int, fixes: set<int>, ouverts: set<int>, avant: set<int>) {
    fixes <= d.Keys && ouverts <= d.Keys && d.Keys <= carte.Keys &&
    source in d && d[source] == 0 && avant <= d.Keys &&
    (forall v :: v in d ==> v in avant || v in fixes || v in ouverts) &&
    (forall v :: v in fixes || v in ouverts ==> Atteignable(carte, source, v)) &&
    (fixes == {} ==> ouverts == {source}) &&
    (fixes != {} ==> source in fixes) &&
    (forall y, seg :: y in fixes && seg in carte[y].segmentsPartants ==> seg.arrivee in fixes || seg.arrivee in ouverts)
  }

  /** Every recorded best path leads from `source` to its intersection and weighs its distance. */
  ghost predicate CheminsV(carte: Carte, d: map<int, nat>, ch: map<int, seq<Segment>>, source: int) {
    source !in ch &&
    forall v :: v in d ==> EstChemin(carte, CheminDans(ch, v), source, v) && d[v] == Poids(CheminDans(ch, v))
  }

  /** The distances of `fixes` are final: no path from `source` is shorter. */
  ghost predicate Definitifs(carte: Carte, d: map<int, nat>, source: int, fixes: set<int>) {
    forall y, p :: y in fixes && y in d && EstChemin(carte, p, source, y) ==> d[y] <= Poids(p)
  }

  /** Every segment leaving `fixes` has been relaxed. */
  ghost predicate Relaches(carte: Carte, d: map<int, nat>, fixes: set<int>) {
    forall y, seg :: y in fixes && y in carte && y in d && seg in carte[y].segmentsPartants ==>
      seg.arrivee in d && d[seg.arrivee] <= d[y] + seg.longueur
  }

  /** No intersection of `fixes` is farther than one of `ouverts`. */
  ghost predicate Ordonnes(d: map<int, nat>, fixes: set<int>, ouverts: set<int>) {
    forall y, u :: y in fixes && u in ouverts && y in d && u in d ==> d[y] <= d[u]
  }

  /**
   * Dijkstra's invariant, for a search that started from reset scratch state:
   * every recorded best path is a path of the recorded length, settled
   * distances are final, every segment leaving a settled intersection has been
   * relaxed, and no settled intersection is farther than an unsettled one.
   */
  ghost predicate JusteV(carte: Carte, d: map<int, nat>, ch: map<int, seq<Segment>>, source: int, fixes: set<int>, ouverts: set<int>) {
    CheminsV(carte, d, ch, source) && Definitifs(carte, d, source, fixes) &&
    Relaches(carte, d, fixes) && Ordonnes(d, fixes, ouverts)
  }

  /** The first `k` segments of `segs`, which leave `c`, have been relaxed. */
  ghost predicate PrefixeRelache(d: map<int, nat>, c: int, segs: seq<Segment>, k: int)
    requires 0 <= k <= |segs|
  {
    c in d && forall i :: 0 <= i < k ==> segs[i].arrivee in d && d[segs[i].arrivee] <= d[c] + segs[i].longueur
  }

  /**
   * The general invariant of the segment loop for the intersection `c` taken
   * from `U` (the unsettled set before `c` left it), after `k` of its segments:
   * `d0` is the scratch distance before the loop, `d` the current one and `r`
   * the current unsettled set.
   */
  ghost predicate InvG(carte: Carte, source: int, c: int, settled: set<int>, U: set<int>,
                       d0: map<int, nat>, d: map<int, nat>, r: set<int>, segs: seq<Segment>, k: int) {
    0 <= k <= |segs| &&
    d0.Keys <= d.Keys && d.Keys <= carte.Keys && U - {c} <= r && r <= d.Keys &&
    (forall v :: v in d0 ==> d[v] <= d0[v]) &&
    (forall y :: (y in settled || y == c) && y in d0 ==> d[y] == d0[y]) &&
    (forall v :: v in d ==> v in d0 || v in r) &&
    (forall v :: v in r ==> Atteignable(carte, source, v)) &&
    (forall i :: 0 <= i < k ==> segs[i].arrivee in settled || segs[i].arrivee in r) &&
    (c in settled ==> r == U - {c})
  }

  /**
   * The clean-start invariant of the segment loop: Dijkstra's invariant for
   * the settled set, `c`'s distance is final, its first `k` segments are
   * relaxed, and `c` lies between the settled and the unsettled intersections.
   */
  ghost predicate InvJ(carte: Carte, source: int, c: int, settled: set<int>,
                       d: map<int, nat>, ch: map<int, seq<Segment>>, r: set<int>, segs: seq<Segment>, k: int) {
    0 <= k <= |segs| &&
    JusteV(carte, d, ch, source, settled, r) && Definitifs(carte, d, source, {c}) &&
    PrefixeRelache(d, c, segs, k) && Ordonnes(d, {c}, r) && Ordonnes(d, settled, {c})
  }

  /** The facts every lemma below starts from: the state before the segment loop. */
  ghost predicate Avant(carte: Carte, source: int, c: int, settled: set<int>, U: set<int>, avant: set<int>,
                        d0: map<int, nat>, segs: seq<Segment>) {
    CarteBienFormee(carte) && ParcoursV(carte, d0, source, settled, U, avant) && c in U &&
    c in carte && segs == carte[c].segmentsPartants &&
    (forall u :: u in U ==> d0[c] <= d0[u])
  }

  /** One step of the segment loop: `seg`, which leaves `c`, is relaxed unless its end is settled. */
  ghost predicate Pas(settled: set<int>, c: int, seg: Segment,
                      d: map<int, nat>, ch: map<int, seq<Segment>>, r: set<int>,
                      d2: map<int, nat>, ch2: map<int, seq<Segment>>, r2: set<int>)
  {
    var e := seg.arrivee;
    if e in settled then d2 == d && ch2 == ch && r2 == r
    else
      r2 == r + {e} &&
      if Ameliore(d, c, e, seg.longueur) then
        d2 == d[e := d[c] + seg.longueur] && ch2 == ch[e := CheminDans(ch, c) + [seg]]
      else d2 == d && ch2 == ch
  }

  lemma DebutG(carte: Carte, source: int, c: int, settled: set<int>, U: set<int>, avant: set<int>,
               d0: map<int, nat>, segs: seq<Segment>)
    requires Avant(carte, source, c, settled, U, avant, d0, segs)
    ensures InvG(carte, source, c, settled, U, d0, d0, U - {c}, segs, 0)
  {
  }

  /** `c` has the least distance among the unsettled intersections, so its distance is final. */
  lemma DebutJ(carte: Carte, source: int, c: int, settled: set<int>, U: set<int>,
               d0: map<int, nat>, ch0: map<int, seq<Segment>>, segs: seq<Segment>)
    requires Avant(carte, source, c, settled, U, {}, d0, segs)
    requires JusteV(carte, d0, ch0, source, settled, U)
    ensures InvJ(carte, source, c, settled, d0, ch0, U - {c}, segs, 0)
  {
    if c !in settled {
      forall p | EstChemin(carte, p, source, c) ensures d0[c] <= Poids(p) {
        if settled != {} {
          FrontiereSurChemin(carte, p, source, c, settled, U, d0);
        }
      }
    }
  }

  lemma PasG(carte: Carte, source: int, c: int, settled: set<int>, U: set<int>, avant: set<int>,
             d0: map<int, nat>, segs: seq<Segment>, k: int,
             d: map<int, nat>, ch: map<int, seq<Segment>>, r: set<int>,
             d2: map<int, nat>, ch2: map<int, seq<Segment>>, r2: set<int>)
    requires Avant(carte, source, c, settled, U, avant, d0, segs)
    requires InvG(carte, source, c, settled, U, d0, d, r, segs, k) && k < |segs|
    requires Pas(settled, c, segs[k], d, ch, r, d2, ch2, r2)
    ensures InvG(carte, source, c, settled, U, d0, d2, r2, segs, k + 1)
  {
    var seg := segs[k];
    var e := seg.arrivee;
    assert seg in carte[c].segmentsPartants;
    if e !in settled {
      assert Atteignable(carte, source, e) by {
        var p :| EstChemin(carte, p, source, c);
        AjoutSegment(carte, p, source, c, seg);
      }
      assert c in settled ==> e in U - {c};
    }
  }

  lemma PasJ(carte: Carte, source: int, c: int, settled: set<int>, U: set<int>,
             d0: map<int, nat>, segs: seq<Segment>, k: int,
             d: map<int, nat>, ch: map<int, seq<Segment>>, r: set<int>,
             d2: map<int, nat>, ch2: map<int, seq<Segment>>, r2: set<int>)
    requires Avant(carte, source, c, settled, U, {}, d0, segs)
    requires InvG(carte, source, c, settled, U, d0, d, r, segs, k) && k < |segs|
    requires InvJ(carte, source, c, settled, d, ch, r, segs, k)
    requires Pas(settled, c, segs[k], d, ch, r, d2, ch2, r2)
    ensures InvJ(carte, source, c, settled, d2, ch2, r2, segs, k + 1)
  {
    var seg := segs[k];
    var e := seg.arrivee;
    assert seg in carte[c].segmentsPartants;
    if e in settled {
      PasJFixe(carte, source, c, settled, d, ch, r, segs, k);
    } else if Ameliore(d, c, e, seg.longueur) {
      assert source in d0 && d[source] == 0;
      PasJAmeliore(carte, source, c, settled, d, ch, r, segs, k);
    } else {
      assert e in r || e == c by {
        if e !in r {
          assert e in d0 && e in U;
        }
      }
      PasJSansEffet(carte, source, c, settled, d, ch, r, segs, k);
    }
  }

  /** A segment into a settled intersection is already relaxed: its end's distance is final. */
  lemma PasJFixe(carte: Carte, source: int, c: int, settled: set<int>,
                 d: map<int, nat>, ch: map<int, seq<Segment>>, r: set<int>, segs: seq<Segment>, k: int)
    requires CarteBienFormee(carte) && c in carte && segs == carte[c].segmentsPartants && 0 <= k < |segs|
    requires InvJ(carte, source, c, settled, d, ch, r, segs, k)
    requires segs[k].arrivee in settled && segs[k].arrivee in d
    ensures InvJ(carte, source, c, settled, d, ch, r, segs, k + 1)
  {
    var seg := segs[k];
    assert seg in carte[c].segmentsPartants;
    AjoutSegment(carte, CheminDans(ch, c), source, c, seg);
    assert d[seg.arrivee] <= d[c] + seg.longueur;
  }

  /** A segment that does not shorten its end's distance leaves the state as it is. */
  lemma PasJSansEffet(carte: Carte, source: int, c: int, settled: set<int>,
                      d: map<int, nat>, ch: map<int, seq<Segment>>, r: set<int>, segs: seq<Segment>, k: int)
    requires 0 <= k < |segs|
    requires InvJ(carte, source, c, settled, d, ch, r, segs, k)
    requires segs[k].arrivee in d && d[segs[k].arrivee] <= d[c] + segs[k].longueur
    requires segs[k].arrivee in r || segs[k].arrivee == c
    ensures InvJ(carte, source, c, settled, d, ch, r + {segs[k].arrivee}, segs, k + 1)
  {
    var e := segs[k].arrivee;
    assert d[c] <= d[e];
    assert Ordonnes(d, settled, r + {e});
    assert Ordonnes(d, {c}, r + {e});
  }

  /** Relaxing a segment that shortens its end's distance records the path through `c`. */
  lemma PasJAmeliore(carte: Carte, source: int, c: int, settled: set<int>,
                     d: map<int, nat>, ch: map<int, seq<Segment>>, r: set<int>, segs: seq<Segment>, k: int)
    requires CarteBienFormee(carte) && c in carte && segs == carte[c].segmentsPartants && 0 <= k < |segs|
    requires InvJ(carte, source, c, settled, d, ch, r, segs, k)
    requires source in d && d[source] == 0
    requires segs[k].arrivee !in settled && Ameliore(d, c, segs[k].arrivee, segs[k].longueur)
    ensures InvJ(carte, source, c, settled, d[segs[k].arrivee := d[c] + segs[k].longueur],
                 ch[segs[k].arrivee := CheminDans(ch, c) + [segs[k]]], r + {segs[k].arrivee}, segs, k + 1)
  {
    var seg := segs[k];
    var e := seg.arrivee;
    var x := d[c] + seg.longueur;
    assert seg in carte[c].segmentsPartants;
    AjoutSegment(carte, CheminDans(ch, c), source, c, seg);
    assert e != c && e != source;
    assert Poids(CheminDans(ch, c) + [seg]) == x;
    MajChemins(carte, d, ch, source, e, CheminDans(ch, c) + [seg], x);
    MajDefinitifs(carte, d, source, settled, e, x);
    MajDefinitifs(carte, d, source, {c}, e, x);
    MajRelaches(carte, d, settled, e, x);
    MajOrdonnes(d, settled, r, e, x);
    MajOrdonnes(d, {c}, r, e, x);
    MajOrdonnes(d, settled, {c}, e, x);
    MajPrefixe(d, c, segs, k, x);
    assert JusteV(carte, d[e := x], ch[e := CheminDans(ch, c) + [seg]], source, settled, r + {e});
  }

  lemma MajChemins(carte: Carte, d: map<int, nat>, ch: map<int, seq<Segment>>, source: int, e: int, q: seq<Segment>, x: nat)
    requires CheminsV(carte, d, ch, source) && e != source && EstChemin(carte, q, source, e) && x == Poids(q)
    ensures CheminsV(carte, d[e := x], ch[e := q], source)
  {
    assert forall v :: v != e ==> CheminDans(ch[e := q], v) == CheminDans(ch, v);
  }

  lemma MajDefinitifs(carte: Carte, d: map<int, nat>, source: int, fixes: set<int>, e: int, x: nat)
    requires Definitifs(carte, d, source, fixes) && e !in fixes
    ensures Definitifs(carte, d[e := x], source, fixes)
  {
  }

  lemma MajRelaches(carte: Carte, d: map<int, nat>, fixes: set<int>, e: int, x: nat)
    requires Relaches(carte, d, fixes) && e !in fixes && (e in d ==> x <= d[e])
    ensures Relaches(carte, d[e := x], fixes)
  {
  }

  lemma MajOrdonnes(d: map<int, nat>, fixes: set<int>, ouverts: set<int>, e: int, x: nat)
    requires Ordonnes(d, fixes, ouverts) && e !in fixes
    requires forall y :: y in fixes && y in d ==> d[y] <= x
    ensures Ordonnes(d[e := x], fixes, ouverts + {e}) && Ordonnes(d[e := x], fixes, ouverts)
  {
  }

  lemma MajPrefixe(d: map<int, nat>, c: int, segs: seq<Segment>, k: int, x: nat)
    requires 0 <= k < |segs| && PrefixeRelache(d, c, segs, k)
    requires segs[k].arrivee != c && x == d[c] + segs[k].longueur
    requires segs[k].arrivee in d ==> x <= d[segs[k].arrivee]
    ensures PrefixeRelache(d[segs[k].arrivee := x], c, segs, k + 1)
  {
  }

  lemma FinG(carte: Carte, source: int, c: int, settled: set<int>, U: set<int>, avant: set<int>,
             d0: map<int, nat>, segs: seq<Segment>, d: map<int, nat>, r: set<int>)
    requires Avant(carte, source, c, settled, U, avant, d0, segs)
    requires InvG(carte, source, c, settled, U, d0, d, r, segs, |segs|)
    ensures ParcoursV(carte, d, source, settled + {c}, r, avant)
  {
    forall seg | seg in carte[c].segmentsPartants ensures seg.arrivee in settled + {c} || seg.arrivee in r {
      var i :| 0 <= i < |segs| && segs[i] == seg;
    }
  }

  lemma FinJ(carte: Carte, source: int, c: int, settled: set<int>, U: set<int>,
             d0: map<int, nat>, segs: seq<Segment>, d: map<int, nat>, ch: map<int, seq<Segment>>, r: set<int>)
    requires Avant(carte, source, c, settled, U, {}, d0, segs)
    requires InvG(carte, source, c, settled, U, d0, d, r, segs, |segs|)
    requires InvJ(carte, source, c, settled, d, ch, r, segs, |segs|)
    ensures JusteV(carte, d, ch, source, settled + {c}, r)
  {
    forall seg | seg in carte[c].segmentsPartants ensures seg.arrivee in d && d[seg.arrivee] <= d[c] + seg.longueur {
      var i :| 0 <= i < |segs| && segs[i] == seg;
    }
  }

  /**
   * Recording the results of a clean search from `source` keeps a table of
   * shortest paths correct: an entry is either kept or a recorded best path.
   */
  lemma TableEtendue(carte: Carte, t0: map<(int, int), Trajet>, t1: map<(int, int), Trajet>,
                     source: int, d: map<int, nat>, ch: map<int, seq<Segment>>)
    requires TableJuste(carte, t0)
    requires forall v :: v in d ==> PlusCourt(carte, source, v, Trajet(CheminDans(ch, v), d[v]))
    requires forall k :: k in t1 ==>
      (k in t0 && t1[k] == t0[k]) || (k.0 == source && k.1 in d && t1[k] == Trajet(CheminDans(ch, k.1), d[k.1]))
    ensures TableJuste(carte, t1)
  {
  }
}
