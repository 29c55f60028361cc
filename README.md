# Tour planning over a road map

This project models the `Planning` class of a pickup-and-delivery tour planner.
The planner holds a road map, a depot, a start date and a list of customer
requests. Each request has a pickup stop and a delivery stop (`Demande`). From
these it computes a tour:

- **Shortest paths.** Dijkstra's algorithm runs from each special intersection
  (the depot and every stop). It fills a table of shortest paths keyed by
  (source, target) and fails as soon as one target cannot be reached.
- **Schedule.** It walks the ordered stops from the depot and back. For each
  leg it takes the table's path and counts the travel time
  (`weight × 3600 / 15` milliseconds) and the service time (`duree × 1000`
  milliseconds). It stamps every stop with its arrival and departure dates,
  then sets the end date and the total duration in seconds.
- **Edits.** A stop or a request can be added, moved or removed. The tour is
  recomputed after each edit, and each edit undoes part of itself when the
  recomputation fails. What is undone differs from one operation to the next,
  and the model follows each one as written.

Modules:

- `Options`: Java's nullable references, as `Option`.
- `Graphe`: segments with natural-number lengths, paths, reachability, shortest
  paths, and the facts the search relies on. These include closed sets and the
  search frontier.
- `Recherche`: Dijkstra's invariants, stated on the scratch state of the
  search. The scratch state is the tentative distance and best path of each
  intersection. This module also proves that one relaxation step keeps the
  invariants.
- `Horaires`: the schedule arithmetic as functions on a `Tournee` value, with
  Java's `int` wrap-around, its saturating `(int)` cast and its truncating
  division written out. It also holds the ordering and decomposition
  properties of the dates.
- `Listes`: `List.indexOf`, `List.remove(Object)` and `List.add(int, E)` on
  sequences, and the lemmas that undo an edit.
- `Planification`: the classes `Demande`, `Requete` and `Planning`. `Planning`
  holds every imperative method, each proved against the specification
  functions above.
- `Constats`: a three-intersection map used to exhibit the finding on the
  failure exit of the shortest-path computation.

Dates are integer milliseconds. `Double.MAX_VALUE`, the "unreached" distance, is
an id with no entry in the scratch map `distance`. The string-keyed table
(`src|dst`) is a `map<(int, int), Trajet>`.

`Valid()` says that the map is well formed, that the scratch state is reset,
and that every entry of the table is a shortest path. Every `Planning`
operation keeps it except the search internals (`ParcourirDepuis`,
`TraiterIntersection`, `RelacherSegment`, `CalculateMinimumDistance`,
`EnregistrerTrajets`), which work on the scratch state, and the as-written
search (`TrajetsDepuisTelQuEcrit`, `CalculerLesTrajetsLesPlusCourtsTelQuEcrit`),
which can leave it and the table wrong.

Travel and service times add up in milliseconds, and `dureeTotale` is in
seconds. Four stops of zero service joined by legs of weight 1 take
5 × 240 = 1200 milliseconds, so `dureeTotale` is 1 (`Horaires.ScenarioSymetrique`).

## Model

| member | source | states |
|---|---|---|
| Planification.Planning.constructor | src/main/java/fr/hexaone/model/Planning.java:79-82 | the planning starts on the given map with no requests, nothing else set, and the invariant holding |
| Planification.Planning.AvecRequetes | src/main/java/fr/hexaone/model/Planning.java:89-92 | the planning starts on the given map with the given request list, nothing else set, and the invariant holding |
| Planification.Planning.GetLowestDistanceIntersection | src/main/java/fr/hexaone/model/Planning.java:449-460 | the result is an unsettled intersection with a distance no larger than that of any other unsettled intersection; it is `None` exactly when no unsettled intersection has a distance |
| Planification.Planning.CalculateMinimumDistance | src/main/java/fr/hexaone/model/Planning.java:470-479 | it relaxes only when going through the source is strictly shorter, and then records the source's distance plus the edge weight and the source's path followed by `seg`; otherwise nothing changes; no distance ever increases |
| Planification.Planning.RelacherSegment | src/main/java/fr/hexaone/model/Planning.java:415-423 | a segment ending at a settled intersection is skipped; any other segment is relaxed and its end joins the unsettled set |
| Planification.Planning.TraiterIntersection | src/main/java/fr/hexaone/model/Planning.java:412-424 | after the intersection of least distance is processed, the search invariant holds with it settled, and so does Dijkstra's invariant on a clean start; the loop measure decreases |
| Planification.Planning.Decroissance | src/main/java/fr/hexaone/model/Planning.java:410-425 | each turn settles a new intersection or shrinks the unsettled set, so the search ends |
| Planification.Planning.ParcourirDepuis | src/main/java/fr/hexaone/model/Planning.java:404-425 | afterwards the intersections with a distance are exactly those reachable from the source plus those that had one before; from a reset scratch state, every recorded distance and path is a shortest path from the source |
| Planification.Planning.EnregistrerTrajets | src/main/java/fr/hexaone/model/Planning.java:427-435 | it succeeds exactly when every target has a distance; it writes only the source's row, using the recorded path and distance; on success the row is full |
| Planification.Planning.TrajetsDepuis | src/main/java/fr/hexaone/model/Planning.java:402-438 | one source's turn succeeds exactly when every target is reachable from it; only the source's row changes; the (s, s) entry is the empty path of weight 0; the invariant is kept |
| Planification.Planning.CalculerLesTrajetsLesPlusCourts | src/main/java/fr/hexaone/model/Planning.java:392-441 | it succeeds exactly when every given intersection is reachable from every other; on success the table has an entry for every ordered pair, each a shortest path, and (s, s) is the empty path; keys stay among the given intersections |
| Planification.Planning.TrajetsDepuisTelQuEcrit | src/main/java/fr/hexaone/model/Planning.java:402-438 | one source's turn as written: it succeeds exactly when every target is reachable or already carried a stale distance; on failure the scratch state it reached is left in place |
| Planification.Planning.CalculerLesTrajetsLesPlusCourtsTelQuEcrit | src/main/java/fr/hexaone/model/Planning.java:392-441 | the loop as written succeeds exactly when `ReussitTelQuEcrit` holds on the scratch state it started from; on failure it names the first failing source and leaves that search's scratch state |
| Planification.ReussitDepuisPropre | src/main/java/fr/hexaone/model/Planning.java:402-440 | started on a reset scratch state, the as-written loop succeeds exactly when every pair is connected |
| Planification.UneSourceBloquee | src/main/java/fr/hexaone/model/Planning.java:431-433 | one source that misses a target makes the all-pairs reachability fail |
| Planification.SourceAtteignante | src/main/java/fr/hexaone/model/Planning.java:429-435 | sources that reach every target accumulate, one turn at a time |
| Planification.AtteintDepuisChaqueSource | src/main/java/fr/hexaone/model/Planning.java:402-440 | if every source reaches every target, every pair is connected |
| Planification.LigneAjoutee | src/main/java/fr/hexaone/model/Planning.java:427-435 | filling one source's row and leaving the others alone completes one more row |
| Planification.LignesToutes | src/main/java/fr/hexaone/model/Planning.java:402-440 | once every row is complete, so is the table, with the empty path on each (s, s) entry |
| Planification.ClesAjoutees | src/main/java/fr/hexaone/model/Planning.java:430-434 | the keys written stay pairs of the given intersections |
| Recherche.DebutJ | src/main/java/fr/hexaone/model/Planning.java:412-413 | the unsettled intersection of least distance has a final distance: no path from the source is shorter |
| Recherche.PasJ | src/main/java/fr/hexaone/model/Planning.java:415-423 | one relaxation step keeps Dijkstra's invariant: recorded paths are paths with the recorded weight, settled distances are final, relaxed segments stay relaxed, and settled intersections are no farther than unsettled ones |
| Recherche.PasJAmeliore | src/main/java/fr/hexaone/model/Planning.java:473-477 | an improving relaxation records a path through the current intersection and keeps the invariant |
| Recherche.PasG | src/main/java/fr/hexaone/model/Planning.java:415-423 | one step keeps the general invariant, whatever the stale scratch state: every unsettled intersection is reachable and distances only drop |
| Recherche.FinG | src/main/java/fr/hexaone/model/Planning.java:424 | once its segments are processed, an intersection can be settled: every segment leaving the settled set ends settled or unsettled |
| Recherche.FinJ | src/main/java/fr/hexaone/model/Planning.java:424 | once all its segments are relaxed, the intersection joins the settled set under Dijkstra's invariant |
| Recherche.TableEtendue | src/main/java/fr/hexaone/model/Planning.java:427-435 | writing the results of a clean search keeps every table entry a shortest path |
| Graphe.FrontiereSurChemin | src/main/java/fr/hexaone/model/Planning.java:410-423 | a path leaving the settled set crosses an unsettled intersection no farther away than the path's weight |
| Graphe.FermeContientAtteint | src/main/java/fr/hexaone/model/Planning.java:410-425 | a path never leaves a set closed under outgoing segments, so the finished search reaches everything reachable |
| Graphe.PoidsMinimalUnique | src/main/java/fr/hexaone/model/Planning.java:434 | two shortest paths for a pair have the same weight |
| Graphe.InegaliteTriangulaire | src/main/java/fr/hexaone/model/Planning.java:434 | table weights obey the triangle inequality |
| Graphe.AjoutSegment | src/main/java/fr/hexaone/model/Planning.java:475-476 | a path followed by a segment leaving its end is a path from the same source, one segment longer in weight |
| Horaires.Etapes | src/main/java/fr/hexaone/model/Planning.java:159-172 | there is one leg per stop plus the return; the first leg leaves the depot, leg i ends at stop i, later legs start at the previous stop, and the last ends at the depot |
| Horaires.TrajetsDeTournee | src/main/java/fr/hexaone/model/Planning.java:155-172 | the trajectory list has one more entry than there are stops |
| Horaires.CompleteCouvre | src/main/java/fr/hexaone/model/Planning.java:161-171 | a table complete for the depot and the stops has an entry for every leg |
| Horaires.Int32 | src/main/java/fr/hexaone/model/Planning.java:167 | `int` arithmetic: the result lies in range, equals the exact value when it fits, and differs from it by a multiple of 2^32 |
| Horaires.DoubleVersInt | src/main/java/fr/hexaone/model/Planning.java:175 | the `(int)` cast saturates to the `int` range and is exact within it |
| Horaires.DivMille | src/main/java/fr/hexaone/model/Planning.java:175 | `int` division by 1000 truncates toward zero |
| Horaires.ServiceExact | src/main/java/fr/hexaone/model/Planning.java:167 | up to 2147483 s, the service time is exactly `duree * 1000` and never negative |
| Horaires.HorairesEtendus | src/main/java/fr/hexaone/model/Planning.java:159-169 | one turn of the schedule loop finds the leg in the table and extends the legs, arrivals and departures of the schedule by one stop |
| Horaires.HorairesTermines | src/main/java/fr/hexaone/model/Planning.java:171-174 | the return leg completes the trajectory list and the total elapsed time |
| Horaires.EcouleDecompose | src/main/java/fr/hexaone/model/Planning.java:156-168 | time elapsed up to any stop is the sum of the travel times and the service times before it |
| Horaires.DureeTotaleDecomposee | src/main/java/fr/hexaone/model/Planning.java:156-175 | the total is the sum of all travel times and all service times |
| Horaires.DepartApresService | src/main/java/fr/hexaone/model/Planning.java:166-168 | departure = arrival + `duree * 1000` |
| Horaires.EcouleCroissant | src/main/java/fr/hexaone/model/Planning.java:159-169 | with valid durations the elapsed time never decreases along the tour |
| Horaires.ArriveeAvantDepart | src/main/java/fr/hexaone/model/Planning.java:166-168 | each stop is left no earlier than it is reached |
| Horaires.DepartAvantArrivee | src/main/java/fr/hexaone/model/Planning.java:165-168 | a later stop is reached no earlier than an earlier one is left |
| Horaires.DepartAvantRetour | src/main/java/fr/hexaone/model/Planning.java:171-174 | the return to the depot comes after every departure |
| Horaires.HorairesCroissants | src/main/java/fr/hexaone/model/Planning.java:159-174 | arrivals and departures are non-decreasing along the list and end before `dateFin` |
| Horaires.MemesPoidsMemeEcoule | src/main/java/fr/hexaone/model/Planning.java:165 | tables whose legs weigh the same give the same elapsed times |
| Horaires.MemesPoidsMemesHoraires | src/main/java/fr/hexaone/model/Planning.java:165-174 | tables whose legs weigh the same give the same dates and total |
| Horaires.TrajetsDeTourneeJustes | src/main/java/fr/hexaone/model/Planning.java:161-172 | every leg of the trajectory list is a shortest path between its ends |
| Horaires.HorairesDeTablesJustes | src/main/java/fr/hexaone/model/Planning.java:153-176 | the schedule does not depend on which shortest paths the table holds |
| Horaires.ScenarioSymetrique | src/main/java/fr/hexaone/model/Planning.java:165-175 | four stops of zero service with unit legs: 1200 ms in total, `dureeTotale` = 1 s |
| Planification.Planning.DaterArret | src/main/java/fr/hexaone/model/Planning.java:159-169 | one stop: the leg is looked up, the stop is stamped with the schedule's arrival and departure, and the partial schedule is extended |
| Planification.Planning.PoserDates | src/main/java/fr/hexaone/model/Planning.java:166-168 | the stop gets both dates, and every stop already stamped keeps its dates unless it is this one |
| Planification.Planning.DaterLesArrets | src/main/java/fr/hexaone/model/Planning.java:154-173 | the loop returns exactly the legs of the tour and its total elapsed time, and every stop carries the dates of its last visit |
| Planification.Planning.EnregistrerHoraires | src/main/java/fr/hexaone/model/Planning.java:171-175 | the trajectory list, `dateFin` = start + total, and `dureeTotale` = total / 1000 are recorded |
| Planification.Planning.OrdonnerLesTrajetsEtLesDates | src/main/java/fr/hexaone/model/Planning.java:153-176 | afterwards the trajectory list, the end date, the total duration and every stop's dates are those of the schedule the table gives the tour; the stops keep their intersections |
| Planification.IdsDe | src/main/java/fr/hexaone/model/Planning.java:194-196 | the ids of the stops, position by position |
| Planification.DureesDe | src/main/java/fr/hexaone/model/Planning.java:167 | the service durations of the stops, position by position |
| Planification.IdsRemplaces | src/main/java/fr/hexaone/model/Planning.java:243 | the ids of the stops once one stop moves to a new intersection, position by position |
| Planification.DemandesDe | src/main/java/fr/hexaone/model/Planning.java:123-127 | two stops per request |
| Planification.DemandesEtendues | src/main/java/fr/hexaone/model/Planning.java:124-127 | one more request adds its pickup and then its delivery |
| Planification.IdsEtendus | src/main/java/fr/hexaone/model/Planning.java:112-115 | two more stops add their two intersections |
| Planification.SpecialesSurCarte | src/main/java/fr/hexaone/model/Planning.java:110-116 | the depot and stops on the map give a search list on the map |
| Planification.CouvreSousListe | src/main/java/fr/hexaone/model/Planning.java:129-140 | a table complete for the requests' stops covers every leg of any tour made of those stops |
| Planification.Planning.IntersectionsSpeciales | src/main/java/fr/hexaone/model/Planning.java:192-196 | the search list is the depot followed by the intersection of each ordered stop |
| Planification.Planning.CalculerLesTrajetsDeLaTournee | src/main/java/fr/hexaone/model/Planning.java:191-200 | it succeeds exactly when the depot and the ordered stops are pairwise connected, and then the table covers every leg |
| Planification.Planning.RecalculerTournee | src/main/java/fr/hexaone/model/Planning.java:190-205 | it succeeds exactly when the depot and the stops are pairwise connected; on success the schedule is up to date; on failure the trajectory list, end date, total duration and stops' dates are unchanged; on success the table is complete for the depot and the stops of the new tour |
| Planification.Planning.IntersectionsDesRequetes | src/main/java/fr/hexaone/model/Planning.java:110-116 | the search list is the depot followed by the pickup and delivery intersection of each request |
| Planification.Planning.DemandesDesRequetes | src/main/java/fr/hexaone/model/Planning.java:123-127 | the stops handed to the solver are the pickup and the delivery of each request, in order |
| Planification.Planning.CalculerLesTrajetsDesRequetes | src/main/java/fr/hexaone/model/Planning.java:108-120 | it succeeds exactly when the depot and the requests' stops are pairwise connected, and then the table is complete for them |
| Planification.Planning.AdopterOrdre | src/main/java/fr/hexaone/model/Planning.java:133-140 | the solver's order becomes the tour and its schedule is up to date |
| Planification.Planning.OrdonnerLesRequetes | src/main/java/fr/hexaone/model/Planning.java:122-140 | the requests' stops go to `tsp`, its answer becomes the tour, and the schedule is up to date |
| Planification.Planning.CalculerMeilleurTournee | src/main/java/fr/hexaone/model/Planning.java:106-143 | it succeeds exactly when the depot and the requests' stops are pairwise connected; on success the tour is `tsp`'s order of the requests' stops and the schedule is up to date; on failure the tour and its schedule fields are unchanged |
| Planification.Planning.AjouterDemande | src/main/java/fr/hexaone/model/Planning.java:212-220 | success exactly when the extended tour is connected; on success the stop is appended and scheduled; on failure the list is the extended list with the first occurrence of the stop removed, and the schedule and dates are unchanged; on success the table is complete for the depot and the stops of the new tour |
| Listes.RetirerApresAjout | src/main/java/fr/hexaone/model/Planning.java:213-217 | removing a stop just appended that was not in the list restores the list |
| Planification.Planning.ModifierDemande | src/main/java/fr/hexaone/model/Planning.java:227-253 | success exactly when the tour with the stop moved is connected; on success the stop has its new service time and intersection; on failure it gets both back and the schedule and dates are unchanged; on success the table is complete for the depot and the stops of the new tour |
| Planification.Planning.AjouterRequete | src/main/java/fr/hexaone/model/Planning.java:260-274 | the request is appended to the requests in every case; success exactly when the tour with both stops appended is connected; on failure the first occurrences of both stops are removed again and the schedule and dates are unchanged; on success the table is complete for the depot and the stops of the new tour |
| Planification.Planning.AjouterArrets | src/main/java/fr/hexaone/model/Planning.java:263-271 | appends the two stops, recomputes, and on failure removes their first occurrences; on success the table is complete for the depot and the stops of the new tour |
| Listes.RetirerDeuxApresAjout | src/main/java/fr/hexaone/model/Planning.java:263-270 | removing two distinct stops just appended that were not in the list restores the list |
| Planification.Planning.AjouterRequeteAuxPositions | src/main/java/fr/hexaone/model/Planning.java:281-288 | the request is appended and both stops are inserted at the given positions in every case; success exactly when that tour is connected; on failure the schedule is not redone; on success the table is complete for the depot and the stops of the new tour |
| Planification.Planning.InsererArrets | src/main/java/fr/hexaone/model/Planning.java:284-287 | inserts the pickup and then the delivery, and recomputes without rollback; on success the table is complete for the depot and the stops of the new tour |
| Listes.Inserer | src/main/java/fr/hexaone/model/Planning.java:284-285 | `add(i, x)`: one element longer, `x` at `i`, earlier elements in place, later ones shifted up |
| Planification.Planning.SupprimerDemande | src/main/java/fr/hexaone/model/Planning.java:293-298 | the first occurrence of the stop is removed and the schedule is rebuilt from the existing table |
| Planification.Planning.SupprimerRequete | src/main/java/fr/hexaone/model/Planning.java:305-319 | the request is removed; the returned positions are the first indices of the pickup and the delivery before removal; both first occurrences are removed; the schedule is rebuilt without a new search |
| Planification.Planning.RetirerArrets | src/main/java/fr/hexaone/model/Planning.java:313-316 | removes the two first occurrences and rebuilds the schedule |
| Listes.IndexOf | src/main/java/fr/hexaone/model/Planning.java:310-311 | `indexOf`: -1 exactly when absent, otherwise a position holding the element with no earlier occurrence |
| Listes.Retirer | src/main/java/fr/hexaone/model/Planning.java:313-314 | `remove(Object)`: unchanged when absent, otherwise one element shorter |
| Listes.RetirerDecale | src/main/java/fr/hexaone/model/Planning.java:313-314 | elements before the removed one stay in place, those after it move down one place |
| Listes.PremiereApresRetrait | src/main/java/fr/hexaone/model/Planning.java:310-314 | once the pickup is removed, the first delivery comes one place earlier |
| Listes.ReinsertionApresRetrait | src/main/java/fr/hexaone/model/Planning.java:305-319 | when the pickup comes first, inserting both stops back at the returned positions restores the list |
| Planification.Planning.ModifierDemandeDuree | src/main/java/fr/hexaone/model/Planning.java:324-328 | the stop gets its new service time and the schedule is rebuilt from the existing table |
| Planification.Planning.ModifierDemandeIntersection | src/main/java/fr/hexaone/model/Planning.java:335-346 | success exactly when the tour with the stop moved is connected; on failure only the intersection is given back, and the schedule and dates are unchanged; on success the table is complete for the depot and the stops of the new tour |
| Planification.Planning.ModifierDemandeIntersectionDureeTelQuEcrit | src/main/java/fr/hexaone/model/Planning.java:353-366 | as written: on failure the stop gets its intersection back but keeps its new service time; on success the table is complete for the depot and the stops of the new tour |
| Planification.DureeNonRetablie | src/main/java/fr/hexaone/model/Planning.java:357-363 | once a stop's service time has changed and is not restored, the tour is no longer the one its dates were computed for |
| Horaires.ServiceModifie | src/main/java/fr/hexaone/model/Planning.java:165-168 | a stop whose service time takes another number of milliseconds is reached at the same date and left at another |
| Planification.DatesPerimees | src/main/java/fr/hexaone/model/Planning.java:357-363 | dates stamped for a tour are not up to date for the tour in which a stop, at its last visit, has a service time of another length: the kept departure no longer matches |
| Planification.Planning.ModifierDemandeIntersectionDuree | src/main/java/fr/hexaone/model/Planning.java:353-366 | corrected: on failure the stop gets back both its intersection and its service time; on success the table is complete for the depot and the stops of the new tour |
| Planification.Planning.ReinitialiserPlanning | src/main/java/fr/hexaone/model/Planning.java:368-378 | the tour, the depot, the dates, the trajectory list and the total are cleared and the request list is emptied, so no tour can be scheduled |
| Planification.Planning.SetIdDepot | src/main/java/fr/hexaone/model/Planning.java:497-499 | the depot becomes the given one |
| Planification.Planning.SetDateDebut | src/main/java/fr/hexaone/model/Planning.java:513-515 | the start date becomes the given one |
| Constats.ConstatEtatResiduel | src/main/java/fr/hexaone/model/Planning.java:431-437 | as written, a failed call leaves stale distances, and the next call records a route between two unconnected intersections |
| Constats.ConstatCorrige | src/main/java/fr/hexaone/model/Planning.java:431-437 | with the reset before the failure exit, both calls fail and every table entry stays a shortest path |

## Left out

- `AlgoTSP.algoGenetique`, the genetic tour solver (lines 129-131), is not part of this model. It is the function parameter `tsp` of `CalculerMeilleurTournee`. Callers must guarantee that its answer holds only stops of the requests. The model does not require a permutation, and it does not model the copy loop at lines 133-137 apart from its result.
- `Carte.java`, `Demande.java`, `Requete.java`, `Segment.java` and `Trajet.java` are not part of this model. Their entities are the datatypes and classes of `Graphe` and `Planification`, inferred from their use in `Planning.java`.
- Floating point is left out. Segment lengths are natural numbers, so `weight * 3600. / 15.` is exactly `weight * 240` and the `(long)` casts lose nothing. `Double.MAX_VALUE` is an absent entry in `distance`.
- The `long` millisecond dates do not overflow in the model.
- `Date` is modelled as integer milliseconds, and clocks are left out.
- The `ComparatorChromosome` field (lines 67-68) is left out. It is a float comparator for the solver.
- The intersection-name lookup and the JavaFX name property in `modifierDemande` (lines 232-244) are left out, because they have no effect on the tour.
- The getters and the setters other than `setIdDepot` and `setDateDebut` (lines 489-587) are left out.
- Aliasing between the list passed to `Planning(carte, requetes)` and the planning's own list is not modelled. `requetes.clear()` therefore empties only the planning's copy.
- `Integer` and `Long` arguments are never `null` in the model. A `null` argument would throw in the Java code.
- A key that is missing from the table is excluded by the preconditions (`Ordonnable`). The Java code would throw there.
- `Planning.constructor` and `Planning.AvecRequetes` start with an empty table where the Java fields are `null`.
- After a failed recomputation, the table is replaced by the rows the failed search wrote before it stopped (line 398 starts a fresh map), as in the code. No contract claims that the earlier table is restored.
- `AjouterRequete`: the request stays in `requetes` when the recomputation fails, as in the code.
- `CalculerMeilleurTournee`: on failure, the contract does not state that the requests' stops keep their dates. It states only that the tour, the trajectory list, the end date and the total duration are unchanged.
- `CalculerMeilleurTournee`, `RecalculerTournee` and the edit methods require the depot and the stops to lie on the map. They also require the scratch state to be reset (`Valid`). The Java code would throw on an unknown id. With the failure exit corrected, the scratch state is always reset between calls.
- `AjouterRequeteAuxPositions`: positions outside the list are excluded by its precondition. In the code, `requetes.add` at line 282 runs first and `demandesOrdonnees.add(positions.get(0|1), …)` at lines 283-285 then throws `IndexOutOfBoundsException`: the request, and the pickup when only the second position is out of range, stay added, and nothing is recomputed. A list with fewer than two positions throws the same way.
- `RecalculerTournee` and the edit methods that recompute require a start date on every path. The code reads `dateDebut` only in `ordonnerLesTrajetsEtLesDates`, so a missing start date with an unreachable stop returns `false` in the code, and is excluded here.
- Each `HashSet` is a `set<int>`, and the iteration order of the minimum scan is an arbitrary choice.

## Findings

| source | as written | input that shows it | evidently intended | confidence | as-written member | corrected member |
|---|---|---|---|---|---|---|
| src/main/java/fr/hexaone/model/Planning.java:431-437 | `return false` leaves the loop before the reset at line 437, so the intersections reached keep their distances and paths | on the map 1 →(5) 2 with 3 isolated: a call on [1, 3] fails; then a call on [2, 1] takes the stale distance of 1 as reached, succeeds, and records a route from 2 to 1 although none exists | reset the scratch state before returning `false` | high, not executed | Planification.Planning.CalculerLesTrajetsLesPlusCourtsTelQuEcrit, Constats.ConstatEtatResiduel | Planification.Planning.CalculerLesTrajetsLesPlusCourts, Constats.ConstatCorrige |
| src/main/java/fr/hexaone/model/Planning.java:353-366 | on failure only the intersection is restored; the new service time stays, so the stop's dates no longer match its duration | a stop in the tour moved to an unreachable intersection with a new `duree` | restore the service time too, as the overload at lines 227-253 does | medium, not executed | Planification.Planning.ModifierDemandeIntersectionDureeTelQuEcrit, Planification.DureeNonRetablie, Planification.DatesPerimees | Planification.Planning.ModifierDemandeIntersectionDuree |
