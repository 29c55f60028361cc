/**
 * The arithmetic of the schedule: for an ordered list of stops, the legs
 * (depot -> first stop -> ... -> last stop -> depot), the elapsed time in
 * milliseconds, each stop's arrival and departure, the end date and the total
 * duration in seconds. Java's `int` wrap-around, its saturating `(int)` cast
 * of a double and its truncating division are written out.
 */
module Horaires {
  import opened Graphe

  const MIN_INT: int := -0x8000_0000
  const MAX_INT: int := 0x7fff_ffff

  /** Java `int` arithmetic: the result wraps around to 32 bits. */
  function Int32(x: int): (r: int)
    ensures MIN_INT <= r <= MAX_INT
    ensures MIN_INT <= x <= MAX_INT ==> r == x
    ensures (r - x) % 0x1_0000_0000 == 0
  {
    if MIN_INT <= x <= MAX_INT then x else (x - MIN_INT) % 0x1_0000_0000 + MIN_INT
  }

  /** Java's `(int)` cast of a double holding a whole number: it saturates. */
  function DoubleVersInt(x: int): (r: int)
    ensures MIN_INT <= r <= MAX_INT
    ensures MIN_INT <= x <= MAX_INT ==> r == x
  {
    if x > MAX_INT then MAX_INT else if x < MIN_INT then MIN_INT else x
  }

  /** Java's `int` division by 1000: it truncates toward zero. */
  function DivMille(a: int): (r: int)
    ensures a >= 0 ==> 0 <= r && 1000 * r <= a < 1000 * r + 1000
    ensures a < 0 ==> r <= 0 && 1000 * r - 1000 < a <= 1000 * r
  {
    if a >= 0 then a / 1000 else -((-a) / 1000)
  }

  /**
   * Travel time in milliseconds for a path of `poids` metres at 15 km/h:
   * `poids * 3600. / 15.` in doubles, exactly `poids * 240` for a whole number
   * of metres.
   */
  function DureeTrajetMs(poids: nat): nat {
    poids * 240
  }

  /** Service time in milliseconds for a stop of `duree` seconds: `duree * 1000` in `int` arithmetic. */
  function DureeServiceMs(duree: int): int {
    Int32(duree * 1000)
  }

  /** The longest service duration, in seconds, whose millisecond count fits an `int`. */
  const DUREE_MAX: int := 2147483

  /** Within the valid range the service time is exactly `duree * 1000`, never negative. */
  lemma ServiceExact(duree: int)
    requires 0 <= duree <= DUREE_MAX
    ensures DureeServiceMs(duree) == duree * 1000 >= 0
  {
  }

  /** The ordered stops of a tour: depot, then the intersection id and duration of each stop. */
  datatype Tournee = Tournee(depot: int, ids: seq<int>, durees: seq<int>)

  ghost predicate BienFormee(t: Tournee) {
    |t.durees| == |t.ids|
  }

  /** Service durations the schedule handles without overflow. */
  ghost predicate DureesValides(t: Tournee) {
    forall i :: 0 <= i < |t.durees| ==> 0 <= t.durees[i] <= DUREE_MAX
  }

  /** The legs of the tour as (from, to) pairs of intersection ids. */
  function Etapes(depot: int, ids: seq<int>): (r: seq<(int, int)>)
    ensures |r| == |ids| + 1
    ensures r[0].0 == depot && r[|ids|].1 == depot
    ensures forall i {:trigger r[i]} :: 0 <= i < |ids| ==> r[i].1 == ids[i]
    ensures forall i {:trigger r[i]} :: 0 < i <= |ids| ==> r[i].0 == ids[i - 1]
  {
    seq(|ids| + 1, i requires 0 <= i <= |ids| =>
      (if i == 0 then depot else ids[i - 1], if i == |ids| then depot else ids[i]))
  }

  /** The table has an entry for every leg. */
  ghost predicate Couvre(table: map<(int, int), Trajet>, depot: int, ids: seq<int>) {
    forall i :: 0 <= i <= |ids| ==> Etapes(depot, ids)[i] in table
  }

  /** The table has an entry for every ordered pair of the given intersections. */
  ghost predicate Complete(table: map<(int, int), Trajet>, noeuds: seq<int>) {
    forall s, t :: s in noeuds && t in noeuds ==> (s, t) in table
  }

  /** A table complete for the depot and the stops covers every leg. */
  lemma CompleteCouvre(table: map<(int, int), Trajet>, depot: int, ids: seq<int>)
    requires Complete(table, [depot] + ids)
    ensures Couvre(table, depot, ids)
  {
    var e := Etapes(depot, ids);
    forall i | 0 <= i <= |ids| ensures e[i] in table {
      assert e[i].0 in [depot] + ids by {
        if i > 0 { assert e[i].0 == ids[i - 1] == ([depot] + ids)[i]; }
      }
      assert e[i].1 in [depot] + ids by {
        if i < |ids| { assert e[i].1 == ids[i] == ([depot] + ids)[i + 1]; }
      }
    }
  }

  /** A table complete for a list of intersections is complete for any list drawn from it. */
  lemma CompleteSousListe(table: map<(int, int), Trajet>, noeuds: seq<int>, sous: seq<int>)
    requires Complete(table, noeuds)
    requires forall x :: x in sous ==> x in noeuds
    ensures Complete(table, sous)
  {
  }

  /** The trajectory list of the tour: the table's path for each leg, in order. */
  function TrajetsDeTournee(table: map<(int, int), Trajet>, depot: int, ids: seq<int>): (r: seq<Trajet>)
    requires Couvre(table, depot, ids)
    ensures |r| == |ids| + 1
  {
    seq(|ids| + 1, i requires 0 <= i <= |ids| && Couvre(table, depot, ids) => table[Etapes(depot, ids)[i]])
  }

  /** Travel time of leg `i`. */
  function TempsEtape(table: map<(int, int), Trajet>, t: Tournee, i: nat): nat
    requires Couvre(table, t.depot, t.ids) && i <= |t.ids|
  {
    DureeTrajetMs(table[Etapes(t.depot, t.ids)[i]].poids)
  }

  /** Milliseconds elapsed from the start until the departure from the `k`-th stop. */
  function Ecoule(table: map<(int, int), Trajet>, t: Tournee, k: nat): int
    requires BienFormee(t) && Couvre(table, t.depot, t.ids) && k <= |t.ids|
  {
    if k == 0 then 0
    else Ecoule(table, t, k - 1) + TempsEtape(table, t, k - 1) + DureeServiceMs(t.durees[k - 1])
  }

  /** Arrival date of stop `i`. */
  function Arrivee(table: map<(int, int), Trajet>, t: Tournee, debut: int, i: nat): int
    requires BienFormee(t) && Couvre(table, t.depot, t.ids) && i < |t.ids|
  {
    debut + Ecoule(table, t, i) + TempsEtape(table, t, i)
  }

  /** Departure date of stop `i`. */
  function Depart(table: map<(int, int), Trajet>, t: Tournee, debut: int, i: nat): int
    requires BienFormee(t) && Couvre(table, t.depot, t.ids) && i < |t.ids|
  {
    debut + Ecoule(table, t, i + 1)
  }

  /** Milliseconds from the start until the return to the depot. */
  function DureeTotaleMs(table: map<(int, int), Trajet>, t: Tournee): int
    requires BienFormee(t) && Couvre(table, t.depot, t.ids)
  {
    Ecoule(table, t, |t.ids|) + TempsEtape(table, t, |t.ids|)
  }

  /** The total duration in seconds, as `(int) duree / 1000` computes it. */
  function DureeTotaleSecondes(table: map<(int, int), Trajet>, t: Tournee): int
    requires BienFormee(t) && Couvre(table, t.depot, t.ids)
  {
    DivMille(DoubleVersInt(DureeTotaleMs(table, t)))
  }

  /** Sum of the travel times of the first `k` legs. */
  function SommeTrajets(table: map<(int, int), Trajet>, t: Tournee, k: nat): nat
    requires Couvre(table, t.depot, t.ids) && k <= |t.ids| + 1
  {
    if k == 0 then 0 else SommeTrajets(table, t, k - 1) + TempsEtape(table, t, k - 1)
  }

  /** Sum of the service times of the first `k` stops. */
  function SommeServices(durees: seq<int>, k: nat): int
    requires k <= |durees|
  {
    if k == 0 then 0 else SommeServices(durees, k - 1) + DureeServiceMs(durees[k - 1])
  }

  lemma {:induction false} EcouleDecompose(table: map<(int, int), Trajet>, t: Tournee, k: nat)
    requires BienFormee(t) && Couvre(table, t.depot, t.ids) && k <= |t.ids|
    ensures Ecoule(table, t, k) == SommeTrajets(table, t, k) + SommeServices(t.durees, k)
    decreases k
  {
    if k > 0 {
      EcouleDecompose(table, t, k - 1);
    }
  }

  /** The total duration is the sum of all travel times and all service times. */
  lemma DureeTotaleDecomposee(table: map<(int, int), Trajet>, t: Tournee)
    requires BienFormee(t) && Couvre(table, t.depot, t.ids)
    ensures DureeTotaleMs(table, t) == SommeTrajets(table, t, |t.ids| + 1) + SommeServices(t.durees, |t.ids|)
  {
    EcouleDecompose(table, t, |t.ids|);
  }

  /**
   * The schedule of the first `i` stops: `prev` is the intersection reached
   * last, `duree` milliseconds have elapsed at the departure from it, and
   * `trajets`, `arr` and `dep` hold the paths of the legs so far and the
   * arrival and departure dates of the stops so far.
   */
  ghost predicate HorairesPartiels(table: map<(int, int), Trajet>, t: Tournee, debut: int, i: nat, prev: int,
                                   duree: int, trajets: seq<Trajet>, arr: seq<int>, dep: seq<int>)
  {
    BienFormee(t) && Couvre(table, t.depot, t.ids) && i <= |t.ids| &&
    prev == (if i == 0 then t.depot else t.ids[i - 1]) &&
    duree == Ecoule(table, t, i) && |trajets| == i && |arr| == i && |dep| == i &&
    (forall j {:trigger trajets[j]} :: 0 <= j < i ==> trajets[j] == table[Etapes(t.depot, t.ids)[j]]) &&
    (forall j {:trigger Arrivee(table, t, debut, j)} :: 0 <= j < i ==> arr[j] == Arrivee(table, t, debut, j)) &&
    (forall j {:trigger Depart(table, t, debut, j)} :: 0 <= j < i ==> dep[j] == Depart(table, t, debut, j))
  }

  /** Stop `i` is reached by the table's path from `prev`, and left once its service is over. */
  lemma HorairesEtendus(table: map<(int, int), Trajet>, t: Tournee, debut: int, i: nat, prev: int,
                        duree: int, trajets: seq<Trajet>, arr: seq<int>, dep: seq<int>)
    requires HorairesPartiels(table, t, debut, i, prev, duree, trajets, arr, dep) && i < |t.ids|
    ensures (prev, t.ids[i]) in table
    ensures var trajet := table[(prev, t.ids[i])];
      var arrivee := duree + DureeTrajetMs(trajet.poids);
      var depart := arrivee + DureeServiceMs(t.durees[i]);
      HorairesPartiels(table, t, debut, i + 1, t.ids[i], depart, trajets + [trajet],
                       arr + [debut + arrivee], dep + [debut + depart])
  {
    var e := Etapes(t.depot, t.ids);
    assert e[i] == (prev, t.ids[i]);
    var trajet := table[(prev, t.ids[i])];
    var arrivee := duree + DureeTrajetMs(trajet.poids);
    var depart := arrivee + DureeServiceMs(t.durees[i]);
    assert Arrivee(table, t, debut, i) == debut + arrivee;
    assert Ecoule(table, t, i + 1) == depart;
    assert Depart(table, t, debut, i) == debut + depart;
    var tr2, a2, d2 := trajets + [trajet], arr + [debut + arrivee], dep + [debut + depart];
    forall j | 0 <= j < i + 1
      ensures tr2[j] == table[e[j]] && a2[j] == Arrivee(table, t, debut, j) && d2[j] == Depart(table, t, debut, j)
    {
      if j < i {
        assert tr2[j] == trajets[j] && a2[j] == arr[j] && d2[j] == dep[j];
      }
    }
  }

  /** After the last stop, the return leg completes the trajectory list and the total duration. */
  lemma HorairesTermines(table: map<(int, int), Trajet>, t: Tournee, debut: int, prev: int,
                         duree: int, trajets: seq<Trajet>, arr: seq<int>, dep: seq<int>)
    requires HorairesPartiels(table, t, debut, |t.ids|, prev, duree, trajets, arr, dep)
    ensures (prev, t.depot) in table
    ensures trajets + [table[(prev, t.depot)]] == TrajetsDeTournee(table, t.depot, t.ids)
    ensures duree + DureeTrajetMs(table[(prev, t.depot)].poids) == DureeTotaleMs(table, t)
    ensures forall j :: 0 <= j < |t.ids| ==> arr[j] == Arrivee(table, t, debut, j) && dep[j] == Depart(table, t, debut, j)
  {
    var e := Etapes(t.depot, t.ids);
    assert e[|t.ids|] == (prev, t.depot);
    var r := trajets + [table[(prev, t.depot)]];
    assert forall j :: 0 <= j <= |t.ids| ==> r[j] == table[e[j]];
  }

  /** With valid durations, each stop's service lasts `duree * 1000` milliseconds. */
  lemma DepartApresService(table: map<(int, int), Trajet>, t: Tournee, debut: int, i: nat)
    requires BienFormee(t) && DureesValides(t) && Couvre(table, t.depot, t.ids) && i < |t.ids|
    ensures Depart(table, t, debut, i) == Arrivee(table, t, debut, i) + t.durees[i] * 1000
  {
    ServiceExact(t.durees[i]);
  }

  /** Changing the service time of stop `k` leaves the time elapsed before it as it was. */
  lemma {:induction false} EcouleAvantService(table: map<(int, int), Trajet>, t: Tournee, k: nat, x: int, i: nat)
    requires BienFormee(t) && Couvre(table, t.depot, t.ids) && k < |t.ids| && i <= k
    ensures Ecoule(table, t.(durees := t.durees[k := x]), i) == Ecoule(table, t, i)
    decreases i
  {
    if i > 0 {
      EcouleAvantService(table, t, k, x, i - 1);
    }
  }

  /**
   * Stop `k` with a service time of another length is reached at the same
   * date and left at another.
   */
  lemma ServiceModifie(table: map<(int, int), Trajet>, t: Tournee, debut: int, k: nat, x: int)
    requires BienFormee(t) && Couvre(table, t.depot, t.ids) && k < |t.ids|
    requires DureeServiceMs(x) != DureeServiceMs(t.durees[k])
    ensures Arrivee(table, t.(durees := t.durees[k := x]), debut, k) == Arrivee(table, t, debut, k)
    ensures Depart(table, t.(durees := t.durees[k := x]), debut, k) != Depart(table, t, debut, k)
  {
    EcouleAvantService(table, t, k, x, k);
  }

  lemma {:induction false} EcouleCroissant(table: map<(int, int), Trajet>, t: Tournee, i: nat, j: nat)
    requires BienFormee(t) && DureesValides(t) && Couvre(table, t.depot, t.ids) && i <= j <= |t.ids|
    ensures Ecoule(table, t, i) <= Ecoule(table, t, j)
    decreases j
  {
    if i < j {
      EcouleCroissant(table, t, i, j - 1);
      ServiceExact(t.durees[j - 1]);
    }
  }

  /** A stop is left after it is reached: its service time is not negative. */
  lemma ArriveeAvantDepart(table: map<(int, int), Trajet>, t: Tournee, debut: int, i: nat)
    requires BienFormee(t) && DureesValides(t) && Couvre(table, t.depot, t.ids) && i < |t.ids|
    ensures Arrivee(table, t, debut, i) <= Depart(table, t, debut, i)
  {
    DepartApresService(table, t, debut, i);
  }

  /** A later stop is reached after an earlier one is left. */
  lemma DepartAvantArrivee(table: map<(int, int), Trajet>, t: Tournee, debut: int, i: nat, j: nat)
    requires BienFormee(t) && DureesValides(t) && Couvre(table, t.depot, t.ids) && i < j < |t.ids|
    ensures Depart(table, t, debut, i) <= Arrivee(table, t, debut, j)
  {
    EcouleCroissant(table, t, i + 1, j);
  }

  /** The last departure comes before the return to the depot. */
  lemma DepartAvantRetour(table: map<(int, int), Trajet>, t: Tournee, debut: int, j: nat)
    requires BienFormee(t) && DureesValides(t) && Couvre(table, t.depot, t.ids) && j < |t.ids|
    ensures Depart(table, t, debut, j) <= debut + DureeTotaleMs(table, t)
  {
    EcouleCroissant(table, t, j + 1, |t.ids|);
  }

  /**
   * Along the tour, arrivals and departures never go back in time: each stop is
   * left after it is reached, a later stop is reached after an earlier one is
   * left, and the return to the depot comes last.
   */
  lemma HorairesCroissants(table: map<(int, int), Trajet>, t: Tournee, debut: int, i: nat, j: nat)
    requires BienFormee(t) && DureesValides(t) && Couvre(table, t.depot, t.ids) && i <= j < |t.ids|
    ensures Arrivee(table, t, debut, i) <= Depart(table, t, debut, i)
    ensures i < j ==> Depart(table, t, debut, i) <= Arrivee(table, t, debut, j)
    ensures Arrivee(table, t, debut, i) <= Arrivee(table, t, debut, j)
    ensures Depart(table, t, debut, i) <= Depart(table, t, debut, j)
    ensures Depart(table, t, debut, j) <= debut + DureeTotaleMs(table, t)
  {
    ArriveeAvantDepart(table, t, debut, i);
    ArriveeAvantDepart(table, t, debut, j);
    if i < j {
      DepartAvantArrivee(table, t, debut, i, j);
    }
    DepartAvantRetour(table, t, debut, j);
  }

  /** Two tables whose legs have the same weights give the same schedule. */
  lemma {:induction false} MemesPoidsMemeEcoule(t1: map<(int, int), Trajet>, t2: map<(int, int), Trajet>, t: Tournee, k: nat)
    requires BienFormee(t) && Couvre(t1, t.depot, t.ids) && Couvre(t2, t.depot, t.ids) && k <= |t.ids|
    requires forall i :: 0 <= i <= |t.ids| ==> t1[Etapes(t.depot, t.ids)[i]].poids == t2[Etapes(t.depot, t.ids)[i]].poids
    ensures Ecoule(t1, t, k) == Ecoule(t2, t, k)
    decreases k
  {
    if k > 0 {
      MemesPoidsMemeEcoule(t1, t2, t, k - 1);
      assert TempsEtape(t1, t, k - 1) == TempsEtape(t2, t, k - 1);
    }
  }

  lemma MemesPoidsMemesHoraires(t1: map<(int, int), Trajet>, t2: map<(int, int), Trajet>, t: Tournee, debut: int)
    requires BienFormee(t) && Couvre(t1, t.depot, t.ids) && Couvre(t2, t.depot, t.ids)
    requires forall i :: 0 <= i <= |t.ids| ==> t1[Etapes(t.depot, t.ids)[i]].poids == t2[Etapes(t.depot, t.ids)[i]].poids
    ensures DureeTotaleMs(t1, t) == DureeTotaleMs(t2, t)
    ensures forall i :: 0 <= i < |t.ids| ==>
      Arrivee(t1, t, debut, i) == Arrivee(t2, t, debut, i) && Depart(t1, t, debut, i) == Depart(t2, t, debut, i)
  {
    forall k | 0 <= k <= |t.ids| ensures Ecoule(t1, t, k) == Ecoule(t2, t, k) {
      MemesPoidsMemeEcoule(t1, t2, t, k);
    }
    assert TempsEtape(t1, t, |t.ids|) == TempsEtape(t2, t, |t.ids|);
  }

  /**
   * Four stops of zero duration, every leg of weight 1: five legs of 240 ms each.
   * The total is 1200 milliseconds, so the total duration in seconds is 1.
   */
  lemma ScenarioSymetrique(table: map<(int, int), Trajet>)
    requires Couvre(table, 0, [1, 2, 3, 4])
    requires forall i :: 0 <= i <= 4 ==> table[Etapes(0, [1, 2, 3, 4])[i]].poids == 1
    ensures DureeTotaleMs(table, Tournee(0, [1, 2, 3, 4], [0, 0, 0, 0])) == 1200
    ensures DureeTotaleSecondes(table, Tournee(0, [1, 2, 3, 4], [0, 0, 0, 0])) == 1
  {
    var t := Tournee(0, [1, 2, 3, 4], [0, 0, 0, 0]);
    forall i | 0 <= i <= 4 ensures TempsEtape(table, t, i) == 240 {
    }
    assert SommeTrajets(table, t, 5) == 1200 by {
      assert SommeTrajets(table, t, 1) == 240;
      assert SommeTrajets(table, t, 2) == 480;
      assert SommeTrajets(table, t, 3) == 720;
      assert SommeTrajets(table, t, 4) == 960;
    }
    assert SommeServices(t.durees, 4) == 0 by {
      assert SommeServices(t.durees, 1) == 0;
      assert SommeServices(t.durees, 2) == 0;
      assert SommeServices(t.durees, 3) == 0;
    }
    DureeTotaleDecomposee(table, t);
  }

  /** Leg `i` of the trajectory list is a shortest path between the ends of that leg. */
  lemma TrajetsDeTourneeJustes(carte: Carte, table: map<(int, int), Trajet>, depot: int, ids: seq<int>)
    requires TableJuste(carte, table) && Couvre(table, depot, ids)
    ensures forall i :: 0 <= i <= |ids| ==>
      PlusCourt(carte, Etapes(depot, ids)[i].0, Etapes(depot, ids)[i].1, TrajetsDeTournee(table, depot, ids)[i])
  {
  }

  /**
   * The schedule does not depend on which shortest paths a table holds: two
   * tables of shortest paths covering the tour give the same dates.
   */
  lemma HorairesDeTablesJustes(carte: Carte, t1: map<(int, int), Trajet>, t2: map<(int, int), Trajet>, t: Tournee, debut: int)
    requires TableJuste(carte, t1) && TableJuste(carte, t2)
    requires BienFormee(t) && Couvre(t1, t.depot, t.ids) && Couvre(t2, t.depot, t.ids)
    ensures DureeTotaleMs(t1, t) == DureeTotaleMs(t2, t)
    ensures DureeTotaleSecondes(t1, t) == DureeTotaleSecondes(t2, t)
    ensures forall i :: 0 <= i < |t.ids| ==>
      Arrivee(t1, t, debut, i) == Arrivee(t2, t, debut, i) && Depart(t1, t, debut, i) == Depart(t2, t, debut, i)
  {
    var e := Etapes(t.depot, t.ids);
    forall i | 0 <= i <= |t.ids| ensures t1[e[i]].poids == t2[e[i]].poids {
      PoidsMinimalUnique(carte, e[i].0, e[i].1, t1[e[i]], t2[e[i]]);
    }
    MemesPoidsMemesHoraires(t1, t2, t, debut);
  }
}
