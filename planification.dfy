/**
 * The tour-planning model: the stops of a delivery tour, the table of shortest
 * paths between its special intersections (the depot and every stop), the
 * schedule built from that table, and the edit operations that change the tour
 * and recompute it, undoing part of the change when the recomputation fails.
 */
module Planification {
  import opened Options
  import opened Graphe
  import opened Listes
  import opened Horaires
  import opened Recherche

  /** A pickup or delivery stop: where it is, how long it lasts (seconds), and the dates stamped on it. */
  class Demande {
    var idIntersection: int
    var duree: int
    var dateArrivee: Option<int>
    var dateDepart: Option<int>

    constructor (idIntersection: int, duree: int)
      ensures this.idIntersection == idIntersection && this.duree == duree
      ensures dateArrivee == None && dateDepart == None
    {
      this.idIntersection := idIntersection;
      this.duree := duree;
      dateArrivee := None;
      dateDepart := None;
    }
  }

  /** A customer request: a pickup stop and a delivery stop. */
  class Requete {
    const demandeCollecte: Demande
    const demandeLivraison: Demande

    constructor (collecte: Demande, livraison: Demande)
      ensures demandeCollecte == collecte && demandeLivraison == livraison
    {
      demandeCollecte := collecte;
      demandeLivraison := livraison;
    }
  }

  /** The intersection ids of a list of stops, in order. */
  function IdsDe(l: seq<Demande>): (r: seq<int>)
    reads l`idIntersection
    ensures |r| == |l| && forall i :: 0 <= i < |l| ==> r[i] == l[i].idIntersection
  {
    if l == [] then [] else IdsDe(l[..|l| - 1]) + [l[|l| - 1].idIntersection]
  }

  /** The service durations of a list of stops, in order. */
  function DureesDe(l: seq<Demande>): (r: seq<int>)
    reads l`duree
    ensures |r| == |l| && forall i :: 0 <= i < |l| ==> r[i] == l[i].duree
  {
    if l == [] then [] else DureesDe(l[..|l| - 1]) + [l[|l| - 1].duree]
  }

  /** The ids of `l` once stop `d` is moved to intersection `id`. */
  function IdsRemplaces(l: seq<Demande>, d: Demande, id: int): (r: seq<int>)
    reads l`idIntersection
    ensures |r| == |l| && forall i :: 0 <= i < |l| ==> r[i] == if l[i] == d then id else l[i].idIntersection
  {
    if l == [] then [] else IdsRemplaces(l[..|l| - 1], d, id) + [if l[|l| - 1] == d then id else l[|l| - 1].idIntersection]
  }

  /** The stops of a list of requests: pickup then delivery, request after request. */
  function DemandesDe(rs: seq<Requete>): (r: seq<Demande>)
    ensures |r| == 2 * |rs|
  {
    if rs == [] then []
    else DemandesDe(rs[..|rs| - 1]) + [rs[|rs| - 1].demandeCollecte, rs[|rs| - 1].demandeLivraison]
  }

  /** One more request adds its pickup and then its delivery. */
  lemma DemandesEtendues(rs: seq<Requete>, i: int)
    requires 0 <= i < |rs|
    ensures DemandesDe(rs[..i + 1]) == DemandesDe(rs[..i]) + [rs[i].demandeCollecte, rs[i].demandeLivraison]
  {
    assert rs[..i + 1][..i] == rs[..i];
  }

  /** The ids of a list extended by two stops. */
  lemma IdsEtendus(l: seq<Demande>, c: Demande, lv: Demande)
    ensures IdsDe(l + [c, lv]) == IdsDe(l) + [c.idIntersection, lv.idIntersection]
  {
    assert (l + [c, lv])[..|l| + 1] == l + [c];
    assert (l + [c])[..|l|] == l;
  }

  /** The depot and stops on the map give a search list on the map. */
  lemma SpecialesSurCarte(carte: Carte, depot: int, l: seq<Demande>)
    requires depot in carte && forall i :: 0 <= i < |l| ==> l[i].idIntersection in carte
    ensures forall i :: 0 <= i < |SpecialesDe(depot, l)| ==> SpecialesDe(depot, l)[i] in carte
  {
    var s := SpecialesDe(depot, l);
    forall i | 0 <= i < |s| ensures s[i] in carte {
      if i > 0 {
        assert s[i] == l[i - 1].idIntersection;
      }
    }
  }

  /** No position of `l` after `j` and before `i` holds the stop at `j`. */
  ghost predicate DerniereAvant(l: seq<Demande>, j: int, i: int)
    requires 0 <= j < |l| && i <= |l|
  {
    forall k :: j < k < i ==> l[k] != l[j]
  }

  /** Position `i` holds the last occurrence of its stop in `l`. */
  ghost predicate DerniereOccurrence(l: seq<Demande>, i: int) {
    0 <= i < |l| && DerniereAvant(l, i, |l|)
  }

  /** A stop last seen at `j` among the first `i + 1` positions is not the stop at `i`. */
  lemma DerniereEtendue(l: seq<Demande>, j: int, i: int)
    requires 0 <= j < i < |l| && DerniereAvant(l, j, i + 1)
    ensures DerniereAvant(l, j, i) && l[i] != l[j]
  {
  }

  /**
   * The stop last seen at each of the first `i` positions of `l` carries the
   * arrival and departure dates listed at that position.
   */
  ghost predicate DatesPartielles(l: seq<Demande>, i: int, arr: seq<int>, dep: seq<int>)
    reads l`dateArrivee, l`dateDepart
  {
    0 <= i <= |l| && |arr| == i && |dep| == i &&
    forall j {:trigger DerniereAvant(l, j, i)} :: 0 <= j < i && DerniereAvant(l, j, i) ==> l[j].dateArrivee == Some(arr[j]) && l[j].dateDepart == Some(dep[j])
  }

  /**
   * The dates stamped on the stops of `l` are those of the schedule of `t`.
   * A stop listed twice carries the dates of its last visit.
   */
  ghost predicate DatesAJour(l: seq<Demande>, table: map<(int, int), Trajet>, t: Tournee, debut: int)
    reads l`dateArrivee, l`dateDepart
    requires BienFormee(t) && Couvre(table, t.depot, t.ids) && |l| == |t.ids|
  {
    forall i {:trigger DerniereOccurrence(l, i)} :: DerniereOccurrence(l, i) ==>
      l[i].dateArrivee == Some(Arrivee(table, t, debut, i)) && l[i].dateDepart == Some(Depart(table, t, debut, i))
  }

  /** The intersections the shortest paths are computed between: `depot`, then the stops of `l` in order. */
  function SpecialesDe(depot: int, l: seq<Demande>): seq<int>
    reads l`idIntersection
  {
    [depot] + IdsDe(l)
  }

  /** The tour followed by stops `l` from `depot`. */
  function TourneeDe(depot: int, l: seq<Demande>): (r: Tournee)
    reads l`idIntersection, l`duree
    ensures BienFormee(r) && r.depot == depot && r.ids == IdsDe(l) && r.durees == DureesDe(l)
  {
    Tournee(depot, IdsDe(l), DureesDe(l))
  }

  /**
   * A table complete for the depot and the stops of `l` covers every leg of
   * a tour made of stops taken from `l`.
   */
  lemma CouvreSousListe(table: map<(int, int), Trajet>, depot: int, l: seq<Demande>, m: seq<Demande>)
    requires Complete(table, SpecialesDe(depot, l))
    requires forall x :: x in m ==> x in l
    ensures Couvre(table, depot, IdsDe(m))
  {
    var sl, sm := SpecialesDe(depot, l), SpecialesDe(depot, m);
    forall v | v in sm ensures v in sl {
      var k :| 0 <= k < |sm| && sm[k] == v;
      if k > 0 {
        assert m[k - 1] in l;
        var j :| 0 <= j < |l| && l[j] == m[k - 1];
        assert sl[j + 1] == v;
      }
    }
    CompleteSousListe(table, sl, sm);
    CompleteCouvre(table, depot, IdsDe(m));
  }

  /**
   * Dates stamped for tour `t` are stale for the tour in which stop `k`, the
   * last visit of its stop in `l`, has a service time of another length.
   */
  lemma DatesPerimees(l: seq<Demande>, table: map<(int, int), Trajet>, t: Tournee, debut: int, k: nat, x: int)
    requires BienFormee(t) && Couvre(table, t.depot, t.ids) && |l| == |t.ids|
    requires DatesAJour(l, table, t, debut) && DerniereOccurrence(l, k)
    requires DureeServiceMs(x) != DureeServiceMs(t.durees[k])
    ensures !DatesAJour(l, table, t.(durees := t.durees[k := x]), debut)
  {
    ServiceModifie(table, t, debut, k, x);
  }

  /**
   * Once the service time of a stop of `l` has changed, the tour of `l` is
   * no longer the one its schedule was computed for.
   */
  twostate lemma DureeNonRetablie(depot: int, l: seq<Demande>, d: Demande)
    requires d in l && d.duree != old(d.duree)
    ensures TourneeDe(depot, l) != old(TourneeDe(depot, l))
  {
    var k :| 0 <= k < |l| && l[k] == d;
    assert TourneeDe(depot, l).durees[k] != old(TourneeDe(depot, l)).durees[k];
  }

  /**
   * The rows of the first `a` given intersections hold an entry for every given target.
   */
  ghost predicate LignesRemplies(table: map<(int, int), Trajet>, noeuds: seq<int>, a: int)
    requires 0 <= a <= |noeuds|
  {
    forall i, t :: 0 <= i < a && t in noeuds ==> (noeuds[i], t) in table
  }

  /**
   * The rows of the first `a` given intersections are complete: each holds an
   * entry for every given target, and the empty path from the row's own source
   * to itself.
   */
  ghost predicate LignesCompletes(table: map<(int, int), Trajet>, noeuds: seq<int>, a: int)
    requires 0 <= a <= |noeuds|
  {
    LignesRemplies(table, noeuds, a) &&
    (forall i :: 0 <= i < a ==> (noeuds[i], noeuds[i]) in table && table[(noeuds[i], noeuds[i])] == Trajet([], 0))
  }

  /** Every key of the table is a pair of the given intersections. */
  ghost predicate ClesDans(table: map<(int, int), Trajet>, noeuds: seq<int>) {
    forall k :: k in table ==> k.0 in noeuds && k.1 in noeuds
  }

  /** Adding entries for pairs of the given intersections keeps the keys among them. */
  lemma ClesAjoutees(t0: map<(int, int), Trajet>, t1: map<(int, int), Trajet>, noeuds: seq<int>, a: int)
    requires 0 <= a < |noeuds| && ClesDans(t0, noeuds)
    requires forall k :: k in t1 ==> k in t0 || (k.0 == noeuds[a] && k.1 in noeuds)
    ensures ClesDans(t1, noeuds)
  {
    assert noeuds[a] in noeuds;
  }

  /** Filling the row of `noeuds[a]` and leaving the other rows alone completes one more row. */
  lemma LigneAjoutee(t0: map<(int, int), Trajet>, t1: map<(int, int), Trajet>, noeuds: seq<int>, a: int)
    requires 0 <= a < |noeuds| && LignesCompletes(t0, noeuds, a)
    requires forall k :: k in t0 && k.0 != noeuds[a] ==> k in t1 && t1[k] == t0[k]
    requires forall t :: t in noeuds ==> (noeuds[a], t) in t1
    requires (noeuds[a], noeuds[a]) in t1 && t1[(noeuds[a], noeuds[a])] == Trajet([], 0)
    ensures LignesCompletes(t1, noeuds, a + 1)
  {
  }

  /** Filling the row of `noeuds[a]` and leaving the other rows alone fills one more row. */
  lemma LigneRemplie(t0: map<(int, int), Trajet>, t1: map<(int, int), Trajet>, noeuds: seq<int>, a: int)
    requires 0 <= a < |noeuds| && LignesRemplies(t0, noeuds, a)
    requires forall k :: k in t0 && k.0 != noeuds[a] ==> k in t1
    requires forall t :: t in noeuds ==> (noeuds[a], t) in t1
    ensures LignesRemplies(t1, noeuds, a + 1)
  {
  }

  /** Once every row is filled, the table is complete. */
  lemma RemplieComplete(table: map<(int, int), Trajet>, noeuds: seq<int>)
    requires LignesRemplies(table, noeuds, |noeuds|)
    ensures Complete(table, noeuds)
  {
    forall s, t | s in noeuds && t in noeuds ensures (s, t) in table {
      var i :| 0 <= i < |noeuds| && noeuds[i] == s;
    }
  }

  /** Once every row is complete, so is the table. */
  lemma LignesToutes(table: map<(int, int), Trajet>, noeuds: seq<int>)
    requires LignesCompletes(table, noeuds, |noeuds|)
    ensures Complete(table, noeuds)
    ensures forall s :: s in noeuds ==> (s, s) in table && table[(s, s)] == Trajet([], 0)
  {
    RemplieComplete(table, noeuds);
    forall s | s in noeuds ensures (s, s) in table && table[(s, s)] == Trajet([], 0) {
      var i :| 0 <= i < |noeuds| && noeuds[i] == s;
    }
  }

  /** One source that cannot reach every given intersection is enough to fail. */
  lemma UneSourceBloquee(carte: Carte, noeuds: seq<int>, a: int)
    requires 0 <= a < |noeuds| && !AtteintTout(carte, noeuds[a], noeuds)
    ensures !ToutAtteignable(carte, noeuds)
  {
    assert noeuds[a] in noeuds;
  }

  /** One more source from which every given intersection is reachable. */
  lemma SourceAtteignante(carte: Carte, noeuds: seq<int>, a: int)
    requires 0 <= a < |noeuds|
    requires forall i :: 0 <= i < a ==> AtteintTout(carte, noeuds[i], noeuds)
    requires AtteintTout(carte, noeuds[a], noeuds)
    ensures forall i :: 0 <= i < a + 1 ==> AtteintTout(carte, noeuds[i], noeuds)
  {
  }

  /**
   * Every given intersection is reachable from `s` or already holds a distance
   * in the scratch state `d0` left by an earlier search.
   */
  ghost predicate AtteintOuMarque(carte: Carte, d0: map<int, nat>, s: int, noeuds: seq<int>) {
    forall t :: t in noeuds ==> t in d0 || Atteignable(carte, s, t)
  }

  /**
   * As the source is written, the search from the first source `noeuds[0]`
   * starts on the scratch state `d0` the caller left, and every later search on
   * a reset state; the step for source `i` succeeds when this holds.
   */
  ghost predicate SourceReussie(carte: Carte, d0: map<int, nat>, noeuds: seq<int>, i: int)
    requires 0 <= i < |noeuds|
  {
    if i == 0 then AtteintOuMarque(carte, d0, noeuds[0], noeuds) else AtteintTout(carte, noeuds[i], noeuds)
  }

  ghost predicate ReussitTelQuEcrit(carte: Carte, d0: map<int, nat>, noeuds: seq<int>) {
    forall i :: 0 <= i < |noeuds| ==> SourceReussie(carte, d0, noeuds, i)
  }

  /** One failing step makes the as-written loop fail. */
  lemma SourceEchouee(carte: Carte, d0: map<int, nat>, noeuds: seq<int>, a: int)
    requires 0 <= a < |noeuds| && !SourceReussie(carte, d0, noeuds, a)
    ensures !ReussitTelQuEcrit(carte, d0, noeuds)
  {
  }

  /** On a reset scratch state nothing is marked: only reachability counts. */
  lemma MarqueVide(carte: Carte, s: int, noeuds: seq<int>)
    ensures AtteintOuMarque(carte, map[], s, noeuds) <==> AtteintTout(carte, s, noeuds)
  {
  }

  /** One more step of the as-written loop that succeeds. */
  lemma SourceReussieEtendue(carte: Carte, d0: map<int, nat>, noeuds: seq<int>, a: int)
    requires 0 <= a < |noeuds|
    requires forall i :: 0 <= i < a ==> SourceReussie(carte, d0, noeuds, i)
    requires SourceReussie(carte, d0, noeuds, a)
    ensures forall i :: 0 <= i < a + 1 ==> SourceReussie(carte, d0, noeuds, i)
  {
  }

  /** Started on a reset scratch state, the as-written loop succeeds exactly when every pair is connected. */
  lemma {:induction false} ReussitDepuisPropre(carte: Carte, noeuds: seq<int>)
    ensures ReussitTelQuEcrit(carte, map[], noeuds) <==> ToutAtteignable(carte, noeuds)
  {
    if ReussitTelQuEcrit(carte, map[], noeuds) {
      forall i | 0 <= i < |noeuds| ensures AtteintTout(carte, noeuds[i], noeuds) {
        assert SourceReussie(carte, map[], noeuds, i);
        MarqueVide(carte, noeuds[i], noeuds);
      }
      AtteintDepuisChaqueSource(carte, noeuds);
    }
    if ToutAtteignable(carte, noeuds) {
      forall i | 0 <= i < |noeuds| ensures SourceReussie(carte, map[], noeuds, i) {
        assert noeuds[i] in noeuds;
        MarqueVide(carte, noeuds[i], noeuds);
      }
    }
  }

  lemma AtteintDepuisChaqueSource(carte: Carte, noeuds: seq<int>)
    requires forall i :: 0 <= i < |noeuds| ==> AtteintTout(carte, noeuds[i], noeuds)
    ensures ToutAtteignable(carte, noeuds)
  {
    forall s, t | s in noeuds && t in noeuds ensures Atteignable(carte, s, t) {
      var i :| 0 <= i < |noeuds| && noeuds[i] == s;
    }
  }

  /**
   * The planning of a tour over a fixed road map. `distance` and `chemin` are
   * the per-intersection scratch state of the shortest-path search: an id with
   * no entry in `distance` is at the "unreached" distance, one with no entry in
   * `chemin` has the empty best path.
   */
  class Planning {
    var idDepot: Option<int>
    var dateDebut: Option<int>
    var dateFin: Option<int>
    var requetes: seq<Requete>
    var demandesOrdonnees: Option<seq<Demande>>
    const carte: Carte
    var listeTrajets: Option<seq<Trajet>>
    var dureeTotale: Option<int>
    var trajetsLesPlusCourts: map<(int, int), Trajet>
    var distance: map<int, nat>
    var chemin: map<int, seq<Segment>>

    /** The map is well formed and the scratch state only names its intersections. */
    ghost predicate BienForme()
      reads this`distance
    {
      CarteBienFormee(carte) && distance.Keys <= carte.Keys
    }

    /** The scratch state is reset: every intersection unreached, with an empty best path. */
    ghost predicate Propre()
      reads this`distance, this`chemin
    {
      distance == map[] && chemin == map[]
    }

    ghost predicate Valid()
      reads this`distance, this`chemin, this`trajetsLesPlusCourts
    {
      BienForme() && Propre() && TableJuste(carte, trajetsLesPlusCourts)
    }

    /** The best path recorded for `v`. */
    function CheminDe(v: int): seq<Segment>
      reads this`chemin
    {
      CheminDans(chemin, v)
    }

    constructor (carte: Carte)
      requires CarteBienFormee(carte)
      ensures Valid() && this.carte == carte && requetes == [] && trajetsLesPlusCourts == map[]
      ensures idDepot == None && dateDebut == None && dateFin == None
      ensures demandesOrdonnees == None && listeTrajets == None && dureeTotale == None
    {
      this.carte := carte;
      requetes := [];
      idDepot, dateDebut, dateFin := None, None, None;
      demandesOrdonnees, listeTrajets, dureeTotale := None, None, None;
      trajetsLesPlusCourts := map[];
      distance, chemin := map[], map[];
    }

    constructor AvecRequetes(carte: Carte, requetes: seq<Requete>)
      requires CarteBienFormee(carte)
      ensures Valid() && this.carte == carte && this.requetes == requetes && trajetsLesPlusCourts == map[]
      ensures idDepot == None && dateDebut == None && dateFin == None
      ensures demandesOrdonnees == None && listeTrajets == None && dureeTotale == None
    {
      this.carte := carte;
      this.requetes := requetes;
      idDepot, dateDebut, dateFin := None, None, None;
      demandesOrdonnees, listeTrajets, dureeTotale := None, None, None;
      trajetsLesPlusCourts := map[];
      distance, chemin := map[], map[];
    }

    ///////////////////////////////////
    // Shortest paths (Dijkstra)     //
    ///////////////////////////////////

    /**
     * The intersection of `unsettled` with the smallest tentative distance, or
     * `None` when every one of them is still unreached.
     */
    method GetLowestDistanceIntersection(unsettled: set<int>) returns (r: Option<int>)
      ensures r.None? ==> forall v :: v in unsettled ==> v !in distance
      ensures r.Some? ==> r.value in unsettled && r.value in distance
      ensures r.Some? ==> forall v :: v in unsettled && v in distance ==> distance[r.value] <= distance[v]
    {
      r := None;
      var reste := unsettled;
      while reste != {}
        invariant reste <= unsettled
        invariant r.None? ==> forall v :: v in unsettled && v !in reste ==> v !in distance
        invariant r.Some? ==> r.value in unsettled && r.value !in reste && r.value in distance
        invariant r.Some? ==> forall v :: v in unsettled && v !in reste && v in distance ==> distance[r.value] <= distance[v]
        decreases |reste|
      {
        ghost var w := UnElement(reste);
        var v :| v in reste;
        if v in distance && (r.None? || distance[v] < distance[r.value]) {
          r := Some(v);
        }
        reste := reste - {v};
      }
    }

    /**
     * Relaxes segment `seg` from `sourceIntersection` to `evaluation`: when going
     * through the source is strictly shorter, the evaluated intersection takes
     * the source's distance plus the edge weight, and the source's best path
     * followed by `seg`.
     */
    method CalculateMinimumDistance(evaluation: int, edgeWeigh: nat, sourceIntersection: int, seg: Segment)
      modifies this`distance, this`chemin
      ensures if Ameliore(old(distance), sourceIntersection, evaluation, edgeWeigh) then
          distance == old(distance)[evaluation := old(distance[sourceIntersection]) + edgeWeigh] &&
          chemin == old(chemin)[evaluation := old(CheminDe(sourceIntersection)) + [seg]]
        else distance == old(distance) && chemin == old(chemin)
      ensures forall v :: v in old(distance) ==> v in distance && distance[v] <= old(distance[v])
    {
      if sourceIntersection in distance {
        var sourceDistance := distance[sourceIntersection];
        if evaluation !in distance || sourceDistance + edgeWeigh < distance[evaluation] {
          distance := distance[evaluation := sourceDistance + edgeWeigh];
          chemin := chemin[evaluation := CheminDe(sourceIntersection) + [seg]];
        }
      }
    }

    /** The search invariant that holds whatever the scratch state held before (see `ParcoursV`). */
    ghost predicate Parcours(source: int, fixes: set<int>, ouverts: set<int>, avant: set<int>)
      reads this`distance
    {
      ParcoursV(carte, distance, source, fixes, ouverts, avant)
    }

    /** Dijkstra's invariant on the current scratch state (see `JusteV`). */
    ghost predicate ParcoursJuste(source: int, fixes: set<int>, ouverts: set<int>)
      reads this`distance, this`chemin
    {
      JusteV(carte, distance, chemin, source, fixes, ouverts)
    }

    /**
     * The body of the search loop for the intersection `c` of least distance:
     * `c` leaves the unsettled set, every segment leaving `c` towards an
     * intersection not yet settled is relaxed, and its end becomes unsettled.
     */
    method TraiterIntersection(ghost source: int, c: int, settled: set<int>, unsettled: set<int>,
                               ghost avant: set<int>, ghost propre: bool) returns (r: set<int>)
      requires BienForme()
      requires Parcours(source, settled, unsettled, avant) && c in unsettled
      requires forall u :: u in unsettled ==> distance[c] <= distance[u]
      requires propre ==> avant == {} && ParcoursJuste(source, settled, unsettled)
      modifies this`distance, this`chemin
      ensures BienForme()
      ensures Parcours(source, settled + {c}, r, avant)
      ensures propre ==> ParcoursJuste(source, settled + {c}, r)
      ensures c !in settled ==> |carte.Keys - (settled + {c})| < |carte.Keys - settled|
      ensures c in settled ==> settled + {c} == settled && |r| < |unsettled|
    {
      Decroissance(c, settled, unsettled);
      ghost var d0 := distance;
      var segs := carte[c].segmentsPartants;
      assert Avant(carte, source, c, settled, unsettled, avant, d0, segs);
      DebutG(carte, source, c, settled, unsettled, avant, d0, segs);
      if propre {
        DebutJ(carte, source, c, settled, unsettled, d0, chemin, segs);
      }
      r := unsettled - {c};
      var k := 0;
      while k < |segs|
        invariant InvG(carte, source, c, settled, unsettled, d0, distance, r, segs, k)
        invariant propre ==> InvJ(carte, source, c, settled, distance, chemin, r, segs, k)
      {
        ghost var d1, ch1, r1 := distance, chemin, r;
        r := RelacherSegment(c, segs[k], settled, r);
        PasG(carte, source, c, settled, unsettled, avant, d0, segs, k, d1, ch1, r1, distance, chemin, r);
        if propre {
          PasJ(carte, source, c, settled, unsettled, d0, segs, k, d1, ch1, r1, distance, chemin, r);
        }
        k := k + 1;
      }
      FinG(carte, source, c, settled, unsettled, avant, d0, segs, distance, r);
      if propre {
        FinJ(carte, source, c, settled, unsettled, d0, segs, distance, chemin, r);
      }
    }

    /**
     * One turn of the loop over the segments leaving `c`: unless `seg` ends at a
     * settled intersection, it is relaxed and its end joins the unsettled set.
     */
    method RelacherSegment(c: int, seg: Segment, settled: set<int>, unsettled: set<int>) returns (r: set<int>)
      modifies this`distance, this`chemin
      ensures Pas(settled, c, seg, old(distance), old(chemin), unsettled, distance, chemin, r)
      ensures forall v :: v in old(distance) ==> v in distance && distance[v] <= old(distance[v])
    {
      r := unsettled;
      var adjacente := seg.arrivee;
      if adjacente !in settled {
        CalculateMinimumDistance(adjacente, seg.longueur, c, seg);
        r := r + {adjacente};
      }
    }

    /** What makes the search loop terminate: a new intersection is settled, or the unsettled set shrinks. */
    lemma Decroissance(c: int, settled: set<int>, unsettled: set<int>)
      requires c in carte && c in unsettled
      ensures c !in settled ==> |carte.Keys - (settled + {c})| < |carte.Keys - settled|
      ensures c in settled ==> settled + {c} == settled && |unsettled - {c}| < |unsettled|
    {
      if c !in settled {
        assert carte.Keys - (settled + {c}) == (carte.Keys - settled) - {c};
      }
    }

    /**
     * One pass of Dijkstra's search from `source` over the whole map. Afterwards
     * exactly the intersections reachable from `source`, and those that already
     * had a distance, have one. From reset scratch state, every recorded
     * distance and best path is a shortest path from `source`.
     */
    method ParcourirDepuis(source: int)
      requires BienForme() && source in carte
      modifies this`distance, this`chemin
      ensures BienForme()
      ensures source in distance && distance[source] == 0
      ensures forall v :: v in distance <==> v in old(distance) || Atteignable(carte, source, v)
      ensures old(Propre()) ==> source !in chemin
      ensures old(Propre()) ==> forall v :: v in distance ==> PlusCourt(carte, source, v, Trajet(CheminDe(v), distance[v]))
    {
      ghost var avant := distance.Keys;
      ghost var propre := Propre();
      CheminVide(carte, source);
      distance := distance[source := 0];
      var settled: set<int> := {};
      var unsettled: set<int> := {source};
      while unsettled != {}
        invariant BienForme()
        invariant Parcours(source, settled, unsettled, avant)
        invariant propre ==> avant == {} && ParcoursJuste(source, settled, unsettled)
        decreases |carte.Keys - settled|, |unsettled|
      {
        var courante := GetLowestDistanceIntersection(unsettled);
        assert courante.Some? by {
          var w := UnElement(unsettled);
          assert w in distance;
        }
        var c := courante.value;
        unsettled := TraiterIntersection(source, c, settled, unsettled, avant, propre);
        settled := settled + {c};
      }
      assert source in settled;
      forall v | Atteignable(carte, source, v) ensures v in distance {
        var p :| EstChemin(carte, p, source, v);
        FermeContientAtteint(carte, p, source, v, settled);
      }
    }

    /**
     * The recording loop after a search from `source`: the path to every given
     * intersection goes into the table under (source, target), until a target
     * the search did not reach stops the loop with a failure.
     */
    method EnregistrerTrajets(source: int, intersections: seq<int>) returns (ok: bool)
      modifies this`trajetsLesPlusCourts
      ensures ok <==> forall j :: 0 <= j < |intersections| ==> intersections[j] in distance
      ensures forall k :: k in trajetsLesPlusCourts ==>
        (k in old(trajetsLesPlusCourts) && trajetsLesPlusCourts[k] == old(trajetsLesPlusCourts)[k]) ||
        (k.0 == source && k.1 in intersections && k.1 in distance && trajetsLesPlusCourts[k] == Trajet(CheminDe(k.1), distance[k.1]))
      ensures forall k :: k in old(trajetsLesPlusCourts) && k.0 != source ==>
        k in trajetsLesPlusCourts && trajetsLesPlusCourts[k] == old(trajetsLesPlusCourts)[k]
      ensures ok ==> forall t :: t in intersections ==>
                       (source, t) in trajetsLesPlusCourts && trajetsLesPlusCourts[(source, t)] == Trajet(CheminDe(t), distance[t])
    {
      var b := 0;
      while b < |intersections|
        invariant 0 <= b <= |intersections|
        invariant forall j :: 0 <= j < b ==> intersections[j] in distance
        invariant forall k :: k in trajetsLesPlusCourts ==>
          (k in old(trajetsLesPlusCourts) && trajetsLesPlusCourts[k] == old(trajetsLesPlusCourts)[k]) ||
          (k.0 == source && k.1 in intersections && k.1 in distance && trajetsLesPlusCourts[k] == Trajet(CheminDe(k.1), distance[k.1]))
        invariant forall k :: k in old(trajetsLesPlusCourts) && k.0 != source ==>
          k in trajetsLesPlusCourts && trajetsLesPlusCourts[k] == old(trajetsLesPlusCourts)[k]
        invariant forall j :: 0 <= j < b ==>
          (source, intersections[j]) in trajetsLesPlusCourts &&
          trajetsLesPlusCourts[(source, intersections[j])] == Trajet(CheminDe(intersections[j]), distance[intersections[j]])
      {
        var t := intersections[b];
        if t !in distance {
          return false;
        }
        trajetsLesPlusCourts := trajetsLesPlusCourts[(source, t) := Trajet(CheminDe(t), distance[t])];
        b := b + 1;
      }
      ok := true;
    }

    /**
     * One turn of the loop over the sources: a search from `source`, the
     * recording of its paths to the given intersections, and the reset of the
     * scratch state (which the failure exit skips as written; see
     * `TrajetsDepuisTelQuEcrit`). It fails exactly when some given
     * intersection is unreachable from `source`; only the row of `source` changes.
     */
    method TrajetsDepuis(source: int, intersections: seq<int>) returns (ok: bool)
      requires Valid() && source in carte
      modifies this`trajetsLesPlusCourts, this`distance, this`chemin
      ensures Valid()
      ensures ok <==> AtteintTout(carte, source, intersections)
      ensures forall k :: k in trajetsLesPlusCourts ==> k in old(trajetsLesPlusCourts) || (k.0 == source && k.1 in intersections)
      ensures forall k :: k in old(trajetsLesPlusCourts) && k.0 != source ==>
        k in trajetsLesPlusCourts && trajetsLesPlusCourts[k] == old(trajetsLesPlusCourts)[k]
      ensures ok ==> forall t :: t in intersections ==> (source, t) in trajetsLesPlusCourts
      ensures ok && source in intersections ==>
        (source, source) in trajetsLesPlusCourts && trajetsLesPlusCourts[(source, source)] == Trajet([], 0)
    {
      ParcourirDepuis(source);
      ghost var t0 := trajetsLesPlusCourts;
      ok := EnregistrerTrajets(source, intersections);
      if !ok {
        ghost var j :| 0 <= j < |intersections| && intersections[j] !in distance;
        assert !Atteignable(carte, source, intersections[j]);
      } else {
        assert forall t :: t in intersections ==> t in distance;
      }
      TableEtendue(carte, t0, trajetsLesPlusCourts, source, distance, chemin);
      distance, chemin := map[], map[];
    }

    /**
     * All the shortest paths between the given intersections, with the scratch
     * state reset before every return. It succeeds exactly when every given
     * intersection is reachable from every other; the new table then holds a
     * shortest path for every ordered pair, the empty path for a pair (s, s).
     */
    method CalculerLesTrajetsLesPlusCourts(intersections: seq<int>) returns (success: bool)
      requires Valid()
      requires forall i :: 0 <= i < |intersections| ==> intersections[i] in carte
      modifies this`trajetsLesPlusCourts, this`distance, this`chemin
      ensures Valid()
      ensures success <==> ToutAtteignable(carte, intersections)
      ensures success ==> Complete(trajetsLesPlusCourts, intersections)
      ensures success ==> forall s :: s in intersections ==> trajetsLesPlusCourts[(s, s)] == Trajet([], 0)
      ensures ClesDans(trajetsLesPlusCourts, intersections)
    {
      trajetsLesPlusCourts := map[];
      var a := 0;
      while a < |intersections|
        invariant 0 <= a <= |intersections|
        invariant Valid()
        invariant ClesDans(trajetsLesPlusCourts, intersections)
        invariant LignesCompletes(trajetsLesPlusCourts, intersections, a)
        invariant forall i :: 0 <= i < a ==> AtteintTout(carte, intersections[i], intersections)
      {
        ghost var t0 := trajetsLesPlusCourts;
        var ok := TrajetsDepuis(intersections[a], intersections);
        ClesAjoutees(t0, trajetsLesPlusCourts, intersections, a);
        if !ok {
          UneSourceBloquee(carte, intersections, a);
          return false;
        }
        LigneAjoutee(t0, trajetsLesPlusCourts, intersections, a);
        SourceAtteignante(carte, intersections, a);
        a := a + 1;
      }
      success := true;
      LignesToutes(trajetsLesPlusCourts, intersections);
      AtteintDepuisChaqueSource(carte, intersections);
    }

    /**
     * The turn of the loop over the sources as written: the failure exit
     * returns before the reset, so the scratch state of this search survives the
     * call. A search started on a scratch state left by an earlier one counts a
     * stale distance as reached.
     */
    method TrajetsDepuisTelQuEcrit(source: int, intersections: seq<int>) returns (ok: bool)
      requires BienForme() && source in carte
      modifies this`trajetsLesPlusCourts, this`distance, this`chemin
      ensures BienForme()
      ensures ok <==> AtteintOuMarque(carte, old(distance), source, intersections)
      ensures ok ==> Propre()
      ensures !ok ==> forall v :: v in distance <==> v in old(distance) || Atteignable(carte, source, v)
      ensures forall k :: k in trajetsLesPlusCourts ==> k in old(trajetsLesPlusCourts) || (k.0 == source && k.1 in intersections)
      ensures forall k :: k in old(trajetsLesPlusCourts) && k.0 != source ==> k in trajetsLesPlusCourts
      ensures ok ==> forall t :: t in intersections ==> (source, t) in trajetsLesPlusCourts
      ensures old(Propre()) && old(TableJuste(carte, trajetsLesPlusCourts)) ==> TableJuste(carte, trajetsLesPlusCourts)
    {
      ghost var propre := Propre();
      ghost var t0 := trajetsLesPlusCourts;
      ParcourirDepuis(source);
      ghost var atteintes := distance;
      ok := EnregistrerTrajets(source, intersections);
      if !ok {
        ghost var j :| 0 <= j < |intersections| && intersections[j] !in distance;
        ghost var v := intersections[j];
        assert v !in atteintes;
        assert v !in old(distance) && !Atteignable(carte, source, v);
      } else {
        assert forall t :: t in intersections ==> t in distance;
      }
      if propre && TableJuste(carte, t0) {
        TableEtendue(carte, t0, trajetsLesPlusCourts, source, distance, chemin);
      }
      if ok {
        distance, chemin := map[], map[];
      }
    }

    /**
     * All the shortest paths between the given intersections, as written: a
     * failing source returns with its scratch state in place. The first search
     * runs on whatever scratch state the previous call left (`ReussitTelQuEcrit`);
     * on failure, `echec` is the first source that failed and the scratch state
     * holds what its search reached. Started on a reset scratch state it behaves
     * as `CalculerLesTrajetsLesPlusCourts`.
     */
    method CalculerLesTrajetsLesPlusCourtsTelQuEcrit(intersections: seq<int>) returns (success: bool, ghost echec: int)
      requires BienForme()
      requires forall i :: 0 <= i < |intersections| ==> intersections[i] in carte
      modifies this`trajetsLesPlusCourts, this`distance, this`chemin
      ensures BienForme()
      ensures success <==> ReussitTelQuEcrit(carte, old(distance), intersections)
      ensures success ==> Complete(trajetsLesPlusCourts, intersections)
      ensures success && |intersections| > 0 ==> Propre()
      ensures !success ==> 0 <= echec < |intersections|
      ensures !success ==> forall i :: 0 <= i < echec ==> SourceReussie(carte, old(distance), intersections, i)
      ensures !success ==> !SourceReussie(carte, old(distance), intersections, echec)
      ensures !success ==>
                forall v :: v in distance <==> (echec == 0 && v in old(distance)) || Atteignable(carte, intersections[echec], v)
      ensures ClesDans(trajetsLesPlusCourts, intersections)
      ensures old(Propre()) ==> TableJuste(carte, trajetsLesPlusCourts)
    {
      ghost var d0, ch0 := distance, chemin;
      ghost var propre0 := Propre();
      trajetsLesPlusCourts := map[];
      echec := 0;
      var a := 0;
      while a < |intersections|
        invariant 0 <= a <= |intersections|
        invariant BienForme()
        invariant ClesDans(trajetsLesPlusCourts, intersections)
        invariant LignesRemplies(trajetsLesPlusCourts, intersections, a)
        invariant forall i :: 0 <= i < a ==> SourceReussie(carte, d0, intersections, i)
        invariant a == 0 ==> distance == d0 && chemin == ch0
        invariant a > 0 ==> Propre()
        invariant propre0 ==> TableJuste(carte, trajetsLesPlusCourts)
      {
        ghost var t0, d1 := trajetsLesPlusCourts, distance;
        var ok := TrajetsDepuisTelQuEcrit(intersections[a], intersections);
        ClesAjoutees(t0, trajetsLesPlusCourts, intersections, a);
        if a > 0 {
          MarqueVide(carte, intersections[a], intersections);
        }
        if !ok {
          echec := a;
          SourceEchouee(carte, d0, intersections, a);
          return false, echec;
        }
        LigneRemplie(t0, trajetsLesPlusCourts, intersections, a);
        SourceReussieEtendue(carte, d0, intersections, a);
        a := a + 1;
      }
      success := true;
      RemplieComplete(trajetsLesPlusCourts, intersections);
    }

    ///////////////////////////////////
    // The schedule                  //
    ///////////////////////////////////

    /** The ordered stops; none before the first tour is computed. */
    function Arrets(): seq<Demande>
      reads this`demandesOrdonnees
    {
      if demandesOrdonnees.Some? then demandesOrdonnees.value else []
    }

    /** The depot, the start date and the ordered stops are set, and the table has a path for every leg. */
    ghost predicate Ordonnable()
      reads this`idDepot, this`dateDebut, this`demandesOrdonnees, this`trajetsLesPlusCourts, Arrets()`idIntersection
    {
      idDepot.Some? && dateDebut.Some? && demandesOrdonnees.Some? &&
      Couvre(trajetsLesPlusCourts, idDepot.value, IdsDe(demandesOrdonnees.value))
    }

    /**
     * The trajectory list, the end date, the total duration and the dates
     * stamped on the stops are those of the schedule the table gives the tour.
     */
    ghost predicate HorairesAJour()
      reads this`idDepot, this`dateDebut, this`demandesOrdonnees, this`trajetsLesPlusCourts, this`listeTrajets, this`dateFin, this`dureeTotale
      reads Arrets()`idIntersection, Arrets()`duree, Arrets()`dateArrivee, Arrets()`dateDepart
      requires Ordonnable()
    {
      var t := TourneeDe(idDepot.value, demandesOrdonnees.value);
      listeTrajets == Some(TrajetsDeTournee(trajetsLesPlusCourts, t.depot, t.ids)) &&
      dateFin == Some(dateDebut.value + DureeTotaleMs(trajetsLesPlusCourts, t)) &&
      dureeTotale == Some(DureeTotaleSecondes(trajetsLesPlusCourts, t)) &&
      DatesAJour(demandesOrdonnees.value, trajetsLesPlusCourts, t, dateDebut.value)
    }

    /**
     * One stop of the schedule: the stop is reached `duree` plus the leg's
     * travel time after the start, and left once its service time has passed
     * too; the result is the time elapsed at the departure.
     */
    method DaterArret(l: seq<Demande>, i: nat, demande: Demande, prevIntersectionId: int, duree: int, trajets: seq<Trajet>,
                      table: map<(int, int), Trajet>, tempsDebut: int, ghost t: Tournee, ghost arr: seq<int>, ghost dep: seq<int>)
        returns (newId: int, apres: int, trajets2: seq<Trajet>, ghost arr2: seq<int>, ghost dep2: seq<int>)
      requires HorairesPartiels(table, t, tempsDebut, i, prevIntersectionId, duree, trajets, arr, dep)
      requires i < |l| == |t.ids| && demande == l[i] && demande.idIntersection == t.ids[i] && demande.duree == t.durees[i]
      requires DatesPartielles(l, i, arr, dep)
      modifies demande`dateArrivee, demande`dateDepart
      ensures HorairesPartiels(table, t, tempsDebut, i + 1, newId, apres, trajets2, arr2, dep2)
      ensures DatesPartielles(l, i + 1, arr2, dep2)
    {
      newId := demande.idIntersection;
      HorairesEtendus(table, t, tempsDebut, i, prevIntersectionId, duree, trajets, arr, dep);
      var trajet := table[(prevIntersectionId, newId)];
      trajets2 := trajets + [trajet];
      var arrivee := duree + DureeTrajetMs(trajet.poids);
      apres := arrivee + DureeServiceMs(demande.duree);
      PoserDates(demande, tempsDebut + arrivee, tempsDebut + apres, l, i, arr, dep);
      arr2, dep2 := arr + [tempsDebut + arrivee], dep + [tempsDebut + apres];
    }

    /** Stamps the stop at position `i` of `l` with its arrival and departure dates. */
    method PoserDates(demande: Demande, arrivee: int, depart: int, ghost l: seq<Demande>, ghost i: nat,
                      ghost arr: seq<int>, ghost dep: seq<int>)
      requires i < |l| && demande == l[i] && DatesPartielles(l, i, arr, dep)
      modifies demande`dateArrivee, demande`dateDepart
      ensures demande.dateArrivee == Some(arrivee) && demande.dateDepart == Some(depart)
      ensures DatesPartielles(l, i + 1, arr + [arrivee], dep + [depart])
    {
      demande.dateArrivee := Some(arrivee);
      demande.dateDepart := Some(depart);
      forall j | 0 <= j < i && DerniereAvant(l, j, i + 1) ensures DerniereAvant(l, j, i) && l[i] != l[j] {
        DerniereEtendue(l, j, i);
      }
    }

    /**
     * Rebuilds the trajectory list from the table, leg by leg, and stamps each
     * stop with its arrival and departure dates; then the end date and the
     * total duration in seconds. The stops keep their intersections and
     * durations.
     */
    method OrdonnerLesTrajetsEtLesDates()
      requires Ordonnable()
      modifies this`listeTrajets, this`dateFin, this`dureeTotale, Arrets()`dateArrivee, Arrets()`dateDepart
      ensures Ordonnable() && HorairesAJour() && Speciales() == old(Speciales())
    {
      var l := demandesOrdonnees.value;
      var depot, table, tempsDebut := idDepot.value, trajetsLesPlusCourts, dateDebut.value;
      ghost var t := TourneeDe(depot, l);
      var trajets, duree := DaterLesArrets(l, depot, table, tempsDebut, t);
      EnregistrerHoraires(trajets, duree);
    }

    /** Records the legs, the end date and the total duration of the current tour's schedule. */
    method EnregistrerHoraires(trajets: seq<Trajet>, duree: int)
      requires Ordonnable()
      requires trajets == TrajetsDeTournee(trajetsLesPlusCourts, idDepot.value, IdsDe(demandesOrdonnees.value))
      requires duree == DureeTotaleMs(trajetsLesPlusCourts, TourneeDe(idDepot.value, demandesOrdonnees.value))
      requires DatesAJour(demandesOrdonnees.value, trajetsLesPlusCourts, TourneeDe(idDepot.value, demandesOrdonnees.value), dateDebut.value)
      modifies this`listeTrajets, this`dateFin, this`dureeTotale
      ensures Ordonnable() && IdsDe(demandesOrdonnees.value) == old(IdsDe(demandesOrdonnees.value))
      ensures listeTrajets == Some(TrajetsDeTournee(trajetsLesPlusCourts, idDepot.value, IdsDe(demandesOrdonnees.value)))
      ensures dateFin == Some(dateDebut.value + DureeTotaleMs(trajetsLesPlusCourts, TourneeDe(idDepot.value, demandesOrdonnees.value)))
      ensures dureeTotale == Some(DureeTotaleSecondes(trajetsLesPlusCourts, TourneeDe(idDepot.value, demandesOrdonnees.value)))
      ensures DatesAJour(demandesOrdonnees.value, trajetsLesPlusCourts, TourneeDe(idDepot.value, demandesOrdonnees.value), dateDebut.value)
    {
      ghost var l, depot, table, debut := demandesOrdonnees.value, idDepot.value, trajetsLesPlusCourts, dateDebut.value;
      ghost var t := TourneeDe(depot, l);
      listeTrajets, dateFin, dureeTotale := Some(trajets), Some(dateDebut.value + duree), Some(DivMille(DoubleVersInt(duree)));
      assert demandesOrdonnees.value == l && idDepot.value == depot && trajetsLesPlusCourts == table && dateDebut.value == debut;
      assert IdsDe(l) == t.ids && TourneeDe(depot, l) == t;
      assert DatesAJour(l, table, t, debut);
    }

    /**
     * The loop of the schedule on its own: walks the stops of `l` from the
     * depot, collects the table's path for each leg and stamps each stop with
     * its dates; returns the legs, back to the depot, and the total duration.
     */
    method DaterLesArrets(l: seq<Demande>, depot: int, table: map<(int, int), Trajet>, tempsDebut: int, ghost t: Tournee)
        returns (trajets: seq<Trajet>, duree: int)
      requires BienFormee(t) && t.depot == depot && |t.ids| == |l| && Couvre(table, depot, t.ids)
      requires forall j :: 0 <= j < |l| ==> l[j].idIntersection == t.ids[j] && l[j].duree == t.durees[j]
      modifies l`dateArrivee, l`dateDepart
      ensures trajets == TrajetsDeTournee(table, depot, t.ids)
      ensures duree == DureeTotaleMs(table, t)
      ensures DatesAJour(l, table, t, tempsDebut)
      ensures IdsDe(l) == old(IdsDe(l))
    {
      ghost var arr: seq<int> := [];
      ghost var dep: seq<int> := [];
      var prevIntersectionId := depot;
      trajets := [];
      duree := 0;
      var i := 0;
      while i < |l|
        modifies l`dateArrivee, l`dateDepart
        invariant 0 <= i <= |l|
        invariant HorairesPartiels(table, t, tempsDebut, i, prevIntersectionId, duree, trajets, arr, dep)
        invariant DatesPartielles(l, i, arr, dep)
      {
        prevIntersectionId, duree, trajets, arr, dep :=
          DaterArret(l, i, l[i], prevIntersectionId, duree, trajets, table, tempsDebut, t, arr, dep);
        i := i + 1;
      }
      HorairesTermines(table, t, tempsDebut, prevIntersectionId, duree, trajets, arr, dep);
      var trajet := table[(prevIntersectionId, depot)];
      trajets := trajets + [trajet];
      duree := duree + DureeTrajetMs(trajet.poids);
    }

    ///////////////////////////////////
    // Recomputing the tour          //
    ///////////////////////////////////

    /** The depot followed by the intersection of every ordered stop. */
    function Speciales(): seq<int>
      reads this`idDepot, this`demandesOrdonnees, Arrets()`idIntersection
      requires idDepot.Some? && demandesOrdonnees.Some?
    {
      SpecialesDe(idDepot.value, demandesOrdonnees.value)
    }

    /** The depot and every ordered stop lie on the map. */
    ghost predicate SurLaCarte()
      reads this`idDepot, this`demandesOrdonnees, Arrets()`idIntersection
    {
      idDepot.Some? && demandesOrdonnees.Some? && idDepot.value in carte &&
      forall d :: d in demandesOrdonnees.value ==> d.idIntersection in carte
    }

    /** The list the search runs on: the depot, then the intersection of each ordered stop in turn. */
    method IntersectionsSpeciales() returns (speciales: seq<int>)
      requires idDepot.Some? && demandesOrdonnees.Some?
      ensures speciales == Speciales()
    {
      var l := demandesOrdonnees.value;
      speciales := [idDepot.value];
      var i := 0;
      while i < |l|
        invariant 0 <= i <= |l|
        invariant speciales == [idDepot.value] + IdsDe(l)[..i]
      {
        speciales := speciales + [l[i].idIntersection];
        i := i + 1;
      }
      assert IdsDe(l)[..|l|] == IdsDe(l);
    }

    /**
     * The shortest paths between the depot and every ordered stop. It fails
     * exactly when one of them cannot be reached from another.
     */
    method CalculerLesTrajetsDeLaTournee() returns (success: bool)
      requires Valid() && SurLaCarte() && dateDebut.Some?
      modifies this`trajetsLesPlusCourts, this`distance, this`chemin
      ensures Valid()
      ensures success <==> ToutAtteignable(carte, old(Speciales()))
      ensures success ==> Complete(trajetsLesPlusCourts, old(Speciales())) && Ordonnable()
      ensures success ==> Complete(trajetsLesPlusCourts, Speciales())
    {
      var speciales := IntersectionsSpeciales();
      success := CalculerLesTrajetsLesPlusCourts(speciales);
      if success {
        CompleteCouvre(trajetsLesPlusCourts, idDepot.value, IdsDe(demandesOrdonnees.value));
      }
    }

    /**
     * The shortest paths between the depot and the ordered stops, then the
     * schedule. It fails exactly when one of them cannot be reached from
     * another; the trajectory list, the end date, the total duration and the
     * stops' dates are then left as they were.
     */
    method RecalculerTournee() returns (success: bool)
      requires Valid() && SurLaCarte() && dateDebut.Some?
      modifies this`trajetsLesPlusCourts, this`distance, this`chemin, this`listeTrajets, this`dateFin, this`dureeTotale
      modifies Arrets()`dateArrivee, Arrets()`dateDepart
      ensures Valid()
      ensures success <==> ToutAtteignable(carte, old(Speciales()))
      ensures success ==> Complete(trajetsLesPlusCourts, old(Speciales())) && Ordonnable() && HorairesAJour()
      ensures success ==> Complete(trajetsLesPlusCourts, Speciales())
      ensures !success ==> unchanged(this`listeTrajets, this`dateFin, this`dureeTotale, Arrets()`dateArrivee, Arrets()`dateDepart)
    {
      success := CalculerLesTrajetsDeLaTournee();
      if success {
        OrdonnerLesTrajetsEtLesDates();
      }
    }


    ///////////////////////////////////
    // The first tour                //
    ///////////////////////////////////

    /** The depot and the pickup and delivery stops of every request lie on the map. */
    ghost predicate RequetesSurLaCarte()
      reads this`idDepot, this`requetes, DemandesDe(requetes)`idIntersection
    {
      idDepot.Some? && idDepot.value in carte &&
      forall i :: 0 <= i < |DemandesDe(requetes)| ==> DemandesDe(requetes)[i].idIntersection in carte
    }

    /**
     * The list the first search runs on: the depot, then the pickup and the
     * delivery intersection of each request in turn.
     */
    method IntersectionsDesRequetes() returns (speciales: seq<int>)
      requires idDepot.Some?
      ensures speciales == SpecialesDe(idDepot.value, DemandesDe(requetes))
    {
      speciales := [idDepot.value];
      var i := 0;
      while i < |requetes|
        invariant 0 <= i <= |requetes|
        invariant speciales == SpecialesDe(idDepot.value, DemandesDe(requetes[..i]))
      {
        var r := requetes[i];
        DemandesEtendues(requetes, i);
        IdsEtendus(DemandesDe(requetes[..i]), r.demandeCollecte, r.demandeLivraison);
        speciales := speciales + [r.demandeCollecte.idIntersection];
        speciales := speciales + [r.demandeLivraison.idIntersection];
        i := i + 1;
      }
      assert requetes[..i] == requetes;
    }

    /** The stops handed to the tour solver: the pickup and then the delivery of each request in turn. */
    method DemandesDesRequetes() returns (demandes: seq<Demande>)
      ensures demandes == DemandesDe(requetes)
    {
      demandes := [];
      var i := 0;
      while i < |requetes|
        invariant 0 <= i <= |requetes|
        invariant demandes == DemandesDe(requetes[..i])
      {
        var r := requetes[i];
        DemandesEtendues(requetes, i);
        demandes := demandes + [r.demandeCollecte];
        demandes := demandes + [r.demandeLivraison];
        i := i + 1;
      }
      assert requetes[..i] == requetes;
    }

    /**
     * The first tour of the requests: the shortest paths between the depot and
     * every pickup and delivery, then the order `tsp` gives to the stops, then
     * the schedule. When some stop cannot be reached from another, the search
     * fails and the tour, its trajectory list and its dates are left as they
     * were.
     */
    method CalculerMeilleurTournee(tsp: seq<Demande> -> seq<Demande>) returns (success: bool)
      requires Valid() && RequetesSurLaCarte() && dateDebut.Some?
      requires forall d :: d in tsp(DemandesDe(requetes)) ==> d in DemandesDe(requetes)
      modifies this`trajetsLesPlusCourts, this`distance, this`chemin, this`demandesOrdonnees, this`listeTrajets, this`dateFin, this`dureeTotale
      modifies DemandesDe(requetes)`dateArrivee, DemandesDe(requetes)`dateDepart
      ensures Valid()
      ensures success <==> ToutAtteignable(carte, old(SpecialesDe(idDepot.value, DemandesDe(requetes))))
      ensures success ==> demandesOrdonnees == Some(tsp(DemandesDe(old(requetes))))
      ensures success ==> Complete(trajetsLesPlusCourts, old(SpecialesDe(idDepot.value, DemandesDe(requetes)))) && Ordonnable() && HorairesAJour()
      ensures !success ==> unchanged(this`demandesOrdonnees, this`listeTrajets, this`dateFin, this`dureeTotale)
    {
      ghost var ds := DemandesDe(requetes);
      ghost var s := SpecialesDe(idDepot.value, ds);
      SpecialesSurCarte(carte, idDepot.value, ds);
      success := CalculerLesTrajetsDesRequetes(ds, s);
      if !success {
        return;
      }
      OrdonnerLesRequetes(tsp, ds, s);
    }

    /** The shortest paths between the depot and every pickup and delivery of the requests. */
    method CalculerLesTrajetsDesRequetes(ghost ds: seq<Demande>, ghost s: seq<int>) returns (success: bool)
      requires Valid() && idDepot.Some?
      requires ds == DemandesDe(requetes) && s == SpecialesDe(idDepot.value, ds)
      requires forall i :: 0 <= i < |s| ==> s[i] in carte
      modifies this`trajetsLesPlusCourts, this`distance, this`chemin
      ensures Valid()
      ensures success <==> ToutAtteignable(carte, s)
      ensures success ==> Complete(trajetsLesPlusCourts, s)
    {
      var speciales := IntersectionsDesRequetes();
      assert speciales == s;
      success := CalculerLesTrajetsLesPlusCourts(speciales);
    }

    /** Hands the requests' stops to `tsp`, makes its answer the tour and schedules it. */
    method OrdonnerLesRequetes(tsp: seq<Demande> -> seq<Demande>, ghost ds: seq<Demande>, ghost s: seq<int>)
      requires idDepot.Some? && dateDebut.Some?
      requires ds == DemandesDe(requetes) && s == SpecialesDe(idDepot.value, ds)
      requires Complete(trajetsLesPlusCourts, s)
      requires forall d :: d in tsp(ds) ==> d in ds
      modifies this`demandesOrdonnees, this`listeTrajets, this`dateFin, this`dureeTotale, ds`dateArrivee, ds`dateDepart
      ensures demandesOrdonnees == Some(tsp(ds)) && Ordonnable() && HorairesAJour()
    {
      var demandes := DemandesDesRequetes();
      var ordre := tsp(demandes);
      assert forall i :: 0 <= i < |ordre| ==> ordre[i] in ds;
      AdopterOrdre(ordre, demandes);
    }

    /** Makes `ordre` the tour and schedules it with the paths already in the table. */
    method AdopterOrdre(ordre: seq<Demande>, ghost demandes: seq<Demande>)
      requires idDepot.Some? && dateDebut.Some?
      requires Complete(trajetsLesPlusCourts, SpecialesDe(idDepot.value, demandes))
      requires forall d :: d in ordre ==> d in demandes
      modifies this`demandesOrdonnees, this`listeTrajets, this`dateFin, this`dureeTotale, ordre`dateArrivee, ordre`dateDepart
      ensures demandesOrdonnees == Some(ordre) && Ordonnable() && HorairesAJour()
    {
      demandesOrdonnees := Some(ordre);
      CouvreSousListe(trajetsLesPlusCourts, idDepot.value, demandes, ordre);
      OrdonnerLesTrajetsEtLesDates();
    }

    ///////////////////////////////////
    // Editing the tour              //
    ///////////////////////////////////

    /**
     * Appends stop `d` to the tour and recomputes it. When the recomputation
     * fails, the first occurrence of `d` is taken out of the list again and
     * the schedule and the stops' dates are left as they were.
     */
    method AjouterDemande(d: Demande) returns (success: bool)
      requires Valid() && SurLaCarte() && dateDebut.Some? && d.idIntersection in carte
      modifies this`demandesOrdonnees, this`trajetsLesPlusCourts, this`distance, this`chemin, this`listeTrajets, this`dateFin, this`dureeTotale
      modifies Arrets()`dateArrivee, Arrets()`dateDepart, d`dateArrivee, d`dateDepart
      ensures Valid()
      ensures success <==> ToutAtteignable(carte, old(SpecialesDe(idDepot.value, demandesOrdonnees.value + [d])))
      ensures success ==> demandesOrdonnees == Some(old(demandesOrdonnees.value) + [d]) && Ordonnable() && HorairesAJour()
      ensures success ==> Complete(trajetsLesPlusCourts, Speciales())
      ensures !success ==> demandesOrdonnees == Some(Retirer(old(demandesOrdonnees.value) + [d], d))
      ensures !success ==> unchanged(this`listeTrajets, this`dateFin, this`dureeTotale)
      ensures !success ==> unchanged(old(Arrets())`dateArrivee, old(Arrets())`dateDepart, d`dateArrivee, d`dateDepart)
    {
      var l := demandesOrdonnees.value;
      ghost var s := SpecialesDe(idDepot.value, l + [d]);
      demandesOrdonnees := Some(l + [d]);
      assert Speciales() == s;
      label milieu:
      success := RecalculerTournee();
      if !success {
        assert Arrets() == l + [d] && unchanged@milieu(Arrets()`dateArrivee, Arrets()`dateDepart);
        demandesOrdonnees := Some(Retirer(l + [d], d));
      }
    }

    /**
     * Moves stop `d` to intersection `id` with service time `duree` and
     * recomputes the tour. When the recomputation fails, the stop gets its
     * intersection and its service time back and the schedule is left as it
     * was.
     */
    method ModifierDemande(d: Demande, duree: int, id: int) returns (success: bool)
      requires Valid() && SurLaCarte() && dateDebut.Some? && id in carte
      modifies d`duree, d`idIntersection, this`trajetsLesPlusCourts, this`distance, this`chemin, this`listeTrajets, this`dateFin, this`dureeTotale
      modifies Arrets()`dateArrivee, Arrets()`dateDepart
      ensures Valid()
      ensures success <==> ToutAtteignable(carte, old(SpecialesRemplacees(d, id)))
      ensures success ==> d.duree == duree && d.idIntersection == id && Ordonnable() && HorairesAJour()
      ensures success ==> Complete(trajetsLesPlusCourts, Speciales())
      ensures !success ==> d.duree == old(d.duree) && d.idIntersection == old(d.idIntersection)
      ensures !success ==> unchanged(this`listeTrajets, this`dateFin, this`dureeTotale, Arrets()`dateArrivee, Arrets()`dateDepart)
    {
      ghost var s := SpecialesRemplacees(d, id);
      var prevDuree, prevId := d.duree, d.idIntersection;
      d.duree, d.idIntersection := duree, id;
      assert Speciales() == s;
      success := RecalculerTournee();
      if !success {
        d.duree, d.idIntersection := prevDuree, prevId;
      }
    }

    /** The depot and the ordered stops' intersections once stop `d` has moved to `id`. */
    function SpecialesRemplacees(d: Demande, id: int): seq<int>
      reads this`idDepot, this`demandesOrdonnees, Arrets()`idIntersection
      requires idDepot.Some? && demandesOrdonnees.Some?
    {
      [idDepot.value] + IdsRemplaces(demandesOrdonnees.value, d, id)
    }

    /**
     * Adds request `r` to the requests and appends its pickup and then its
     * delivery to the tour, then recomputes it. When the recomputation fails,
     * the first occurrences of both stops are taken out of the list again and
     * the schedule and the stops' dates are left as they were; the request
     * stays in the request list.
     */
    method AjouterRequete(r: Requete) returns (success: bool)
      requires Valid() && SurLaCarte() && dateDebut.Some?
      requires r.demandeCollecte.idIntersection in carte && r.demandeLivraison.idIntersection in carte
      modifies this`requetes, this`demandesOrdonnees, this`trajetsLesPlusCourts, this`distance, this`chemin, this`listeTrajets, this`dateFin, this`dureeTotale
      modifies Arrets()`dateArrivee, Arrets()`dateDepart
      modifies r.demandeCollecte`dateArrivee, r.demandeCollecte`dateDepart, r.demandeLivraison`dateArrivee, r.demandeLivraison`dateDepart
      ensures Valid() && requetes == old(requetes) + [r]
      ensures success <==> ToutAtteignable(carte, old(SpecialesDe(idDepot.value, demandesOrdonnees.value + [r.demandeCollecte] + [r.demandeLivraison])))
      ensures success ==> demandesOrdonnees == Some(old(demandesOrdonnees.value) + [r.demandeCollecte] + [r.demandeLivraison])
      ensures success ==> Ordonnable() && HorairesAJour()
      ensures success ==> Complete(trajetsLesPlusCourts, Speciales())
      ensures !success ==> demandesOrdonnees == Some(Retirer(Retirer(old(demandesOrdonnees.value) + [r.demandeCollecte] + [r.demandeLivraison], r.demandeCollecte), r.demandeLivraison))
      ensures !success ==> unchanged(this`listeTrajets, this`dateFin, this`dureeTotale)
      ensures !success ==> unchanged(old(Arrets())`dateArrivee, old(Arrets())`dateDepart)
      ensures !success ==> unchanged(r.demandeCollecte`dateArrivee, r.demandeCollecte`dateDepart, r.demandeLivraison`dateArrivee, r.demandeLivraison`dateDepart)
    {
      ghost var s := SpecialesDe(idDepot.value, demandesOrdonnees.value + [r.demandeCollecte] + [r.demandeLivraison]);
      requetes := requetes + [r];
      success := AjouterArrets(r.demandeCollecte, r.demandeLivraison, s);
    }

    /**
     * Appends `c` and then `lv` to the tour and recomputes it; when that
     * fails, takes their first occurrences out again.
     */
    method AjouterArrets(c: Demande, lv: Demande, ghost s: seq<int>) returns (success: bool)
      requires Valid() && SurLaCarte() && dateDebut.Some?
      requires c.idIntersection in carte && lv.idIntersection in carte
      requires s == SpecialesDe(idDepot.value, demandesOrdonnees.value + [c] + [lv])
      modifies this`demandesOrdonnees, this`trajetsLesPlusCourts, this`distance, this`chemin, this`listeTrajets, this`dateFin, this`dureeTotale
      modifies Arrets()`dateArrivee, Arrets()`dateDepart, c`dateArrivee, c`dateDepart, lv`dateArrivee, lv`dateDepart
      ensures Valid() && unchanged(this`requetes)
      ensures success <==> ToutAtteignable(carte, s)
      ensures success ==> demandesOrdonnees == Some(old(demandesOrdonnees.value) + [c] + [lv]) && Ordonnable() && HorairesAJour()
      ensures success ==> Complete(trajetsLesPlusCourts, Speciales())
      ensures !success ==> demandesOrdonnees == Some(Retirer(Retirer(old(demandesOrdonnees.value) + [c] + [lv], c), lv))
      ensures !success ==> unchanged(this`listeTrajets, this`dateFin, this`dureeTotale)
      ensures !success ==> unchanged(old(Arrets())`dateArrivee, old(Arrets())`dateDepart, c`dateArrivee, c`dateDepart, lv`dateArrivee, lv`dateDepart)
    {
      var l := demandesOrdonnees.value + [c] + [lv];
      demandesOrdonnees := Some(l);
      assert Speciales() == s;
      label milieu:
      success := RecalculerTournee();
      if !success {
        assert Arrets() == l && unchanged@milieu(Arrets()`dateArrivee, Arrets()`dateDepart);
        demandesOrdonnees := Some(Retirer(Retirer(l, c), lv));
      }
    }

    /**
     * Adds request `r` to the requests, inserts its pickup at `positions[0]`
     * and then its delivery at `positions[1]`, and recomputes the tour. Nothing
     * is undone when the recomputation fails: the schedule and the stops'
     * dates are then those of the previous tour.
     */
    method AjouterRequeteAuxPositions(r: Requete, positions: seq<int>) returns (success: bool)
      requires Valid() && SurLaCarte() && dateDebut.Some?
      requires r.demandeCollecte.idIntersection in carte && r.demandeLivraison.idIntersection in carte
      requires |positions| >= 2 && 0 <= positions[0] <= |demandesOrdonnees.value| && 0 <= positions[1] <= |demandesOrdonnees.value| + 1
      modifies this`requetes, this`demandesOrdonnees, this`trajetsLesPlusCourts, this`distance, this`chemin, this`listeTrajets, this`dateFin, this`dureeTotale
      modifies Arrets()`dateArrivee, Arrets()`dateDepart
      modifies r.demandeCollecte`dateArrivee, r.demandeCollecte`dateDepart, r.demandeLivraison`dateArrivee, r.demandeLivraison`dateDepart
      ensures Valid() && requetes == old(requetes) + [r]
      ensures demandesOrdonnees == Some(Inserer(Inserer(old(demandesOrdonnees.value), positions[0], r.demandeCollecte), positions[1], r.demandeLivraison))
      ensures success <==> ToutAtteignable(carte, old(SpecialesDe(idDepot.value, Inserer(Inserer(demandesOrdonnees.value, positions[0], r.demandeCollecte), positions[1], r.demandeLivraison))))
      ensures success ==> Ordonnable() && HorairesAJour()
      ensures success ==> Complete(trajetsLesPlusCourts, Speciales())
      ensures !success ==> unchanged(this`listeTrajets, this`dateFin, this`dureeTotale, Arrets()`dateArrivee, Arrets()`dateDepart)
    {
      ghost var s := SpecialesDe(idDepot.value, Inserer(Inserer(demandesOrdonnees.value, positions[0], r.demandeCollecte), positions[1], r.demandeLivraison));
      requetes := requetes + [r];
      success := InsererArrets(r.demandeCollecte, positions[0], r.demandeLivraison, positions[1], s);
    }

    /** Inserts `c` at position `i` and then `lv` at position `j`, and recomputes the tour. */
    method InsererArrets(c: Demande, i: int, lv: Demande, j: int, ghost s: seq<int>) returns (success: bool)
      requires Valid() && SurLaCarte() && dateDebut.Some?
      requires c.idIntersection in carte && lv.idIntersection in carte
      requires 0 <= i <= |demandesOrdonnees.value| && 0 <= j <= |demandesOrdonnees.value| + 1
      requires s == SpecialesDe(idDepot.value, Inserer(Inserer(demandesOrdonnees.value, i, c), j, lv))
      modifies this`demandesOrdonnees, this`trajetsLesPlusCourts, this`distance, this`chemin, this`listeTrajets, this`dateFin, this`dureeTotale
      modifies Arrets()`dateArrivee, Arrets()`dateDepart, c`dateArrivee, c`dateDepart, lv`dateArrivee, lv`dateDepart
      ensures Valid() && unchanged(this`requetes)
      ensures demandesOrdonnees == Some(Inserer(Inserer(old(demandesOrdonnees.value), i, c), j, lv))
      ensures success <==> ToutAtteignable(carte, s)
      ensures success ==> Ordonnable() && HorairesAJour()
      ensures success ==> Complete(trajetsLesPlusCourts, Speciales())
      ensures !success ==> unchanged(this`listeTrajets, this`dateFin, this`dureeTotale, Arrets()`dateArrivee, Arrets()`dateDepart)
    {
      var l := Inserer(Inserer(demandesOrdonnees.value, i, c), j, lv);
      InsererInclus(demandesOrdonnees.value, i, c);
      InsererInclus(Inserer(demandesOrdonnees.value, i, c), j, lv);
      demandesOrdonnees := Some(l);
      assert Speciales() == s;
      success := RecalculerTournee();
    }

    /**
     * Takes the first occurrence of stop `d` out of the tour and rebuilds the
     * schedule with the paths already in the table.
     */
    method SupprimerDemande(d: Demande)
      requires idDepot.Some? && dateDebut.Some? && demandesOrdonnees.Some?
      requires Couvre(trajetsLesPlusCourts, idDepot.value, IdsDe(Retirer(demandesOrdonnees.value, d)))
      modifies this`demandesOrdonnees, this`listeTrajets, this`dateFin, this`dureeTotale, Arrets()`dateArrivee, Arrets()`dateDepart
      ensures demandesOrdonnees == Some(Retirer(old(demandesOrdonnees.value), d))
      ensures Ordonnable() && HorairesAJour()
    {
      var l := demandesOrdonnees.value;
      RetirerInclus(l, d);
      demandesOrdonnees := Some(Retirer(l, d));
      OrdonnerLesTrajetsEtLesDates();
    }

    /**
     * Takes request `r` out of the requests and the first occurrences of its
     * pickup and then its delivery out of the tour, rebuilds the schedule with
     * the paths already in the table, and returns where the two stops were.
     */
    method SupprimerRequete(r: Requete) returns (positions: seq<int>)
      requires idDepot.Some? && dateDebut.Some? && demandesOrdonnees.Some?
      requires Couvre(trajetsLesPlusCourts, idDepot.value, IdsDe(Retirer(Retirer(demandesOrdonnees.value, r.demandeCollecte), r.demandeLivraison)))
      modifies this`requetes, this`demandesOrdonnees, this`listeTrajets, this`dateFin, this`dureeTotale, Arrets()`dateArrivee, Arrets()`dateDepart
      ensures requetes == Retirer(old(requetes), r)
      ensures positions == [IndexOf(old(demandesOrdonnees.value), r.demandeCollecte), IndexOf(old(demandesOrdonnees.value), r.demandeLivraison)]
      ensures demandesOrdonnees == Some(Retirer(Retirer(old(demandesOrdonnees.value), r.demandeCollecte), r.demandeLivraison))
      ensures Ordonnable() && HorairesAJour()
    {
      requetes := Retirer(requetes, r);
      var l := demandesOrdonnees.value;
      positions := [IndexOf(l, r.demandeCollecte), IndexOf(l, r.demandeLivraison)];
      RetirerArrets(r.demandeCollecte, r.demandeLivraison);
    }

    /** Takes the first occurrences of `c` and then of `lv` out of the tour and rebuilds the schedule. */
    method RetirerArrets(c: Demande, lv: Demande)
      requires idDepot.Some? && dateDebut.Some? && demandesOrdonnees.Some?
      requires Couvre(trajetsLesPlusCourts, idDepot.value, IdsDe(Retirer(Retirer(demandesOrdonnees.value, c), lv)))
      modifies this`demandesOrdonnees, this`listeTrajets, this`dateFin, this`dureeTotale, Arrets()`dateArrivee, Arrets()`dateDepart
      ensures demandesOrdonnees == Some(Retirer(Retirer(old(demandesOrdonnees.value), c), lv))
      ensures Ordonnable() && HorairesAJour() && unchanged(this`requetes)
    {
      var l := demandesOrdonnees.value;
      RetirerInclus(l, c);
      RetirerInclus(Retirer(l, c), lv);
      demandesOrdonnees := Some(Retirer(Retirer(l, c), lv));
      OrdonnerLesTrajetsEtLesDates();
    }

    /** Gives stop `d` service time `duree` and rebuilds the schedule with the paths already in the table. */
    method ModifierDemandeDuree(d: Demande, duree: int)
      requires Ordonnable()
      modifies d`duree, this`listeTrajets, this`dateFin, this`dureeTotale, Arrets()`dateArrivee, Arrets()`dateDepart
      ensures d.duree == duree && Ordonnable() && HorairesAJour()
    {
      d.duree := duree;
      OrdonnerLesTrajetsEtLesDates();
    }

    /**
     * Moves stop `d` to intersection `id` and recomputes the tour. When the
     * recomputation fails, the stop gets its intersection back and the
     * schedule is left as it was.
     */
    method ModifierDemandeIntersection(d: Demande, id: int) returns (success: bool)
      requires Valid() && SurLaCarte() && dateDebut.Some? && id in carte
      modifies d`idIntersection, this`trajetsLesPlusCourts, this`distance, this`chemin, this`listeTrajets, this`dateFin, this`dureeTotale
      modifies Arrets()`dateArrivee, Arrets()`dateDepart
      ensures Valid()
      ensures success <==> ToutAtteignable(carte, old(SpecialesRemplacees(d, id)))
      ensures success ==> d.idIntersection == id && Ordonnable() && HorairesAJour()
      ensures success ==> Complete(trajetsLesPlusCourts, Speciales())
      ensures !success ==> d.idIntersection == old(d.idIntersection)
      ensures !success ==> unchanged(this`listeTrajets, this`dateFin, this`dureeTotale, Arrets()`dateArrivee, Arrets()`dateDepart)
    {
      ghost var s := SpecialesRemplacees(d, id);
      var prevId := d.idIntersection;
      d.idIntersection := id;
      assert Speciales() == s;
      success := RecalculerTournee();
      if !success {
        d.idIntersection := prevId;
      }
    }

    /**
     * Moves stop `d` to intersection `id` with service time `duree` and
     * recomputes the tour, as written: when the recomputation fails, only the
     * intersection is given back and the stop keeps its new service time.
     */
    method ModifierDemandeIntersectionDureeTelQuEcrit(d: Demande, id: int, duree: int) returns (success: bool)
      requires Valid() && SurLaCarte() && dateDebut.Some? && id in carte
      modifies d`duree, d`idIntersection, this`trajetsLesPlusCourts, this`distance, this`chemin, this`listeTrajets, this`dateFin, this`dureeTotale
      modifies Arrets()`dateArrivee, Arrets()`dateDepart
      ensures Valid()
      ensures success <==> ToutAtteignable(carte, old(SpecialesRemplacees(d, id)))
      ensures success ==> d.duree == duree && d.idIntersection == id && Ordonnable() && HorairesAJour()
      ensures success ==> Complete(trajetsLesPlusCourts, Speciales())
      ensures !success ==> d.duree == duree && d.idIntersection == old(d.idIntersection)
      ensures !success ==> unchanged(this`listeTrajets, this`dateFin, this`dureeTotale, Arrets()`dateArrivee, Arrets()`dateDepart)
    {
      ghost var s := SpecialesRemplacees(d, id);
      var prevId := d.idIntersection;
      d.idIntersection, d.duree := id, duree;
      assert Speciales() == s;
      success := RecalculerTournee();
      if !success {
        d.idIntersection := prevId;
      }
    }

    /**
     * Moves stop `d` to intersection `id` with service time `duree` and
     * recomputes the tour; when the recomputation fails, the stop gets both
     * its intersection and its service time back.
     */
    method ModifierDemandeIntersectionDuree(d: Demande, id: int, duree: int) returns (success: bool)
      requires Valid() && SurLaCarte() && dateDebut.Some? && id in carte
      modifies d`duree, d`idIntersection, this`trajetsLesPlusCourts, this`distance, this`chemin, this`listeTrajets, this`dateFin, this`dureeTotale
      modifies Arrets()`dateArrivee, Arrets()`dateDepart
      ensures Valid()
      ensures success <==> ToutAtteignable(carte, old(SpecialesRemplacees(d, id)))
      ensures success ==> d.duree == duree && d.idIntersection == id && Ordonnable() && HorairesAJour()
      ensures success ==> Complete(trajetsLesPlusCourts, Speciales())
      ensures !success ==> d.duree == old(d.duree) && d.idIntersection == old(d.idIntersection)
      ensures !success ==> unchanged(this`listeTrajets, this`dateFin, this`dureeTotale, Arrets()`dateArrivee, Arrets()`dateDepart)
    {
      success := ModifierDemande(d, duree, id);
    }

    /** Forgets the tour, its depot, its dates, its trajectory list and its requests; the map and the table stay. */
    method ReinitialiserPlanning()
      modifies this`demandesOrdonnees, this`dateDebut, this`dateFin, this`dureeTotale, this`idDepot, this`listeTrajets, this`requetes
      ensures demandesOrdonnees == None && dateDebut == None && dateFin == None && dureeTotale == None
      ensures idDepot == None && listeTrajets == None && requetes == []
      ensures Arrets() == [] && !Ordonnable()
    {
      demandesOrdonnees, dateDebut, dateFin, dureeTotale := None, None, None, None;
      idDepot, listeTrajets := None, None;
      requetes := [];
    }

    method SetIdDepot(id: Option<int>)
      modifies this`idDepot
      ensures idDepot == id
    {
      idDepot := id;
    }

    method SetDateDebut(date: Option<int>)
      modifies this`dateDebut
      ensures dateDebut == date
    {
      dateDebut := date;
    }
  }
}
