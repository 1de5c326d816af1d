# AddPentagon: a verified model of the "add pentagon" command

The shape editor has an undoable command, `AddPentagon`. It turns the five free
vertices on the canvas into one pentagon. To decide the order in which the
vertices are joined, the command tries all 120 orderings of the indices 0..4.
It scores each one by the length of the closed cycle it traces. It keeps the
first ordering with the smallest score. Then it:

- builds the pentagon's point array by `System.Array.Sort(keys, items)`;
- removes every vertex from the canvas;
- resets the process-wide vertex counter;
- adds the pentagon.

`UnExecute` removes the pentagon again and puts captured vertices back. The
ordering and the captured vertices are cached across calls: a redo reuses them.

The model is split into five modules:

- `Models` (`models.dfy`): the parts of the drawing model the command touches.
  - Points.
  - Shape objects, compared by identity (an assumption; see "Left out").
  - The canvas as a class with a shape list and the vertex counter, with `Add`, `Remove` and `RemoveAll`.
  - `OfType<Vertex>()` as `Vertices`.
- `Permutations` (`permutations.dfy`): `GetPermutations` as a recursive function, with lemmas that give:
  - exactly which sequences it yields;
  - how many it yields;
  - the order it yields them in.
- `CycleOrdering` (`cycle_ordering.dfy`):
  - the cycle score and `CalculateDistanceByIndeces`;
  - the arg-min search of `SortIndicesForVertices`;
  - the specification of that search: the first smallest score.
- `ArraySort` (`array_sort.dfy`): what `Array.Sort(keys, items)` does to the two arrays, for the keys the command holds.
- `AddPentagonCommand` (`add_pentagon.dfy`): the command as a class with the C# command's fields. It has:
  - the constructor with its null check;
  - `Execute` and `UnExecute`;
  - lemmas about what a round trip does.

Two behaviours of the code are modelled as written, and stated as lemmas.

- **Inverse placement.** `Array.Sort(arrSortedIndices, arrPoints)` sorts the
  chosen ordering `p` back to 0..4 and moves the points along. So the point of
  captured vertex `i` lands at index `p[i]`. The points are not in visiting
  order `p[0], p[1], ...`, and the pentagon is drawn through the inverse of
  the ordering. The sort also leaves the cached key array as 0..4, so every
  later `Execute` builds the pentagon in capture order. `Execute` states both
  cases; `InversePlacementExample` works one ordering through.
- **Lost vertex on undo.** `UnExecute` re-adds only `COUNT_VERTEX - 1 = 4` of
  the five captured vertices and sets the counter to 4.
  `ExecuteThenUnExecute` and `RoundTripLosesFifthVertex` state the result: the
  canvas ends up with its other shapes followed by four vertices, and the
  fifth vertex is gone.

The distance between two vertices, `Vertex.GetDistance`, is not part of this
model. Every operation that measures takes the measure as a parameter `dist`.
Distances are mathematical reals.

## Model

| member | source | states |
|---|---|---|
| Permutations.SingletonsMember | Task2/Project/Shapes/Commands/Pentagon/AddPentagon.cs:42-45 | the `length == 1` case (`Singletons`) yields exactly the one-element sequences whose element is on the list |
| Permutations.GetPermutations | Task2/Project/Shapes/Commands/Pentagon/AddPentagon.cs:40-49 | the definition; its meaning is stated by GetPermutationsMembers, GetPermutationsCount and GetPermutationsSorted |
| Permutations.Extend | Task2/Project/Shapes/Commands/Pentagon/AddPentagon.cs:47 | the definition of one prefix's extensions; its meaning is stated by ExtendMember, ExtendLength and ExtendSorted |
| Permutations.ExtendAll | Task2/Project/Shapes/Commands/Pentagon/AddPentagon.cs:46-48 | the definition of the `SelectMany` step; its meaning is stated by ExtendAllMember, ExtendAllLength and ExtendAllSorted |
| Permutations.ExtendMember | Task2/Project/Shapes/Commands/Pentagon/AddPentagon.cs:47-48 | a sequence extends a prefix iff it is the prefix plus one list element the prefix does not contain |
| Permutations.ExtendAllMember | Task2/Project/Shapes/Commands/Pentagon/AddPentagon.cs:46-48 | the `SelectMany` step yields `y` iff `y` minus its last element is a shorter selection and that last element is a list element not already in it |
| Permutations.GetPermutationsSound | Task2/Project/Shapes/Commands/Pentagon/AddPentagon.cs:40-49 | every yielded sequence has the requested length, has no repeated element, and draws its elements from the list |
| Permutations.GetPermutationsComplete | Task2/Project/Shapes/Commands/Pentagon/AddPentagon.cs:40-49 | every sequence of the requested length with distinct elements from the list is yielded |
| Permutations.GetPermutationsMembers | Task2/Project/Shapes/Commands/Pentagon/AddPentagon.cs:40-49 | both directions: yielded iff of the requested length, without repeats and drawn from the list |
| Permutations.ExtendLength | Task2/Project/Shapes/Commands/Pentagon/AddPentagon.cs:47 | a distinct prefix drawn from a distinct list of n elements has n − \|prefix\| extensions |
| Permutations.ExtendAllLength | Task2/Project/Shapes/Commands/Pentagon/AddPentagon.cs:46-48 | when every prefix has m extensions, the step yields \|prefixes\| · m sequences |
| Permutations.GetPermutationsCount | Task2/Project/Shapes/Commands/Pentagon/AddPentagon.cs:40-49 | for a distinct list of n elements exactly n·(n−1)···(n−k+1) sequences of length k are yielded |
| Permutations.ExtendSorted | Task2/Project/Shapes/Commands/Pentagon/AddPentagon.cs:47 | for an ascending list a prefix's extensions come out in strictly increasing lexicographic order |
| Permutations.ExtendCrossLess | Task2/Project/Shapes/Commands/Pentagon/AddPentagon.cs:46-48 | every extension of an earlier prefix is lexicographically below every extension of a later one |
| Permutations.ExtendAllSorted | Task2/Project/Shapes/Commands/Pentagon/AddPentagon.cs:46-48 | extending a lexicographically sorted list of prefixes keeps the result sorted |
| Permutations.GetPermutationsSorted | Task2/Project/Shapes/Commands/Pentagon/AddPentagon.cs:40-49 | for an ascending list the permutations come out in strictly increasing lexicographic order |
| Permutations.LexSortedDistinct | Task2/Project/Shapes/Commands/Pentagon/AddPentagon.cs:68 | a strictly sorted list of candidates holds no candidate twice |
| CycleOrdering.PathLength | Task2/Project/Shapes/Commands/Pentagon/AddPentagon.cs:52-56 | the definition of the open path's length; CycleLengthExpanded spells it out and CalculateDistanceByIndices is proved equal to it |
| CycleOrdering.CycleLength | Task2/Project/Shapes/Commands/Pentagon/AddPentagon.cs:52-57 | the definition of the score; its meaning is stated by CycleLengthExpanded |
| CycleOrdering.Orderings | Task2/Project/Shapes/Commands/Pentagon/AddPentagon.cs:68 | the definition of the candidate list; its meaning is stated by OrderingsAreAllPermutations |
| CycleOrdering.CycleLengthExpanded | Task2/Project/Shapes/Commands/Pentagon/AddPentagon.cs:50-58 | the score is the four consecutive edges plus the closing edge measured from `v[p[0]]` to `v[p[4]]` |
| CycleOrdering.CalculateDistanceByIndices | Task2/Project/Shapes/Commands/Pentagon/AddPentagon.cs:50-58 | the loop returns exactly the cycle score of the ordering |
| CycleOrdering.OrderingsAreAllPermutations | Task2/Project/Shapes/Commands/Pentagon/AddPentagon.cs:63-68 | the candidates are exactly the permutations of 0..4: 120 of them, each once, in lexicographic order |
| CycleOrdering.OrderingsAreOrderings | Task2/Project/Shapes/Commands/Pentagon/AddPentagon.cs:68 | every candidate at every index is a permutation of 0..4 |
| CycleOrdering.Costs | Task2/Project/Shapes/Commands/Pentagon/AddPentagon.cs:69-71 | one score per candidate, 120 in all |
| CycleOrdering.FirstMinimum | Task2/Project/Shapes/Commands/Pentagon/AddPentagon.cs:69-77 | the index has a score no larger than any other, and every earlier index has a strictly larger score |
| CycleOrdering.FirstMinimumUnique | Task2/Project/Shapes/Commands/Pentagon/AddPentagon.cs:72-76 | only one index meets that description, so the search result is determined |
| CycleOrdering.MinimalOrdering | Task2/Project/Shapes/Commands/Pentagon/AddPentagon.cs:78 | the chosen ordering is a permutation of 0..4 |
| CycleOrdering.MinimalOrderingIsFirstShortest | Task2/Project/Shapes/Commands/Pentagon/AddPentagon.cs:59-79 | no permutation of 0..4 has a shorter cycle than the chosen one, and every lexicographically earlier permutation has a strictly longer cycle (ties go to the first) |
| CycleOrdering.InitialIndices | Task2/Project/Shapes/Commands/Pentagon/AddPentagon.cs:63-67 | the loop fills a new array with 0, 1, 2, 3, 4 |
| CycleOrdering.SelectOrdering | Task2/Project/Shapes/Commands/Pentagon/AddPentagon.cs:61-78 | the scan that starts from "no candidate yet" and replaces its best only on a strictly smaller score returns the first minimum and its ordering |
| ArraySort.MoveItems | Task2/Project/Shapes/Commands/Pentagon/AddPentagon.cs:91 | the item at index j moves to the index given by key j |
| ArraySort.ResetKeys | Task2/Project/Shapes/Commands/Pentagon/AddPentagon.cs:91 | the sorted key array reads 0, 1, ..., n−1 |
| ArraySort.SortKeysAndItems | Task2/Project/Shapes/Commands/Pentagon/AddPentagon.cs:91 | for permutation keys: afterwards keys read 0..n−1 and the item that stood beside key k is at index k |
| Models.Filter | Task2/Project/Shapes/Commands/Pentagon/AddPentagon.cs:87 | the definition of order-preserving filtering; its meaning is stated by FilterMember, FilterConcat, FilterAll and FilterNone |
| Models.Vertices | Task2/Project/Shapes/Commands/Pentagon/AddPentagon.cs:87 | the definition of `OfType<Vertex>()`; its meaning is stated by FilterMember, VerticesAreVertices and VerticesSplit |
| Models.WithoutVertices | Task2/Project/Shapes/Commands/Pentagon/AddPentagon.cs:96 | the definition of what `RemoveAll(shape => shape is Vertex)` leaves; its meaning is stated by FilterMember, FilterConcat and VerticesSplit |
| Models.FilterMember | Task2/Project/Shapes/Commands/Pentagon/AddPentagon.cs:87 | a shape is kept iff it is on the list and passes the test as required |
| Models.FilterConcat | Task2/Project/Shapes/Commands/Pentagon/AddPentagon.cs:96 | filtering distributes over concatenation (the kept shapes keep their relative order) |
| Models.FilterAll | Task2/Project/Shapes/Commands/Pentagon/AddPentagon.cs:96 | a list whose every shape passes is kept whole |
| Models.FilterNone | Task2/Project/Shapes/Commands/Pentagon/AddPentagon.cs:96 | a list whose every shape fails is dropped whole |
| Models.VerticesAreVertices | Task2/Project/Shapes/Commands/Pentagon/AddPentagon.cs:87 | `OfType<Vertex>()` yields vertices only |
| Models.VerticesSplit | Task2/Project/Shapes/Commands/Pentagon/AddPentagon.cs:87 | the vertices and the other shapes together account for every shape on the list |
| Models.RemoveFirst | Task2/Project/Shapes/Commands/Pentagon/AddPentagon.cs:105 | `List.Remove`: an absent shape leaves the list unchanged; a present one is removed once (length − 1, multiset minus that shape); which occurrence goes and the order of the rest are stated by RemoveFirstAt |
| Models.RemoveFirstAt | Task2/Project/Shapes/Commands/Pentagon/AddPentagon.cs:105 | `List.Remove` takes out the first occurrence of the shape: at an index `i` with no earlier occurrence, the result is the shapes before `i` followed by those after it, in order |
| Models.RemoveFirstAppended | Task2/Project/Shapes/Commands/Pentagon/AddPentagon.cs:98 | removing a shape just appended to a list that did not hold it gives the list back |
| Models.Canvas.Add | Task2/Project/Shapes/Commands/Pentagon/AddPentagon.cs:98 | appends the shape and changes nothing else |
| Models.Canvas.Remove | Task2/Project/Shapes/Commands/Pentagon/AddPentagon.cs:105 | removes the first occurrence of the shape and changes nothing else |
| Models.Canvas.RemoveAll | Task2/Project/Shapes/Commands/Pentagon/AddPentagon.cs:96 | leaves exactly the shapes the test rejects, in order, and keeps the counter |
| AddPentagonCommand.AddPentagon.constructor | Task2/Project/Shapes/Commands/Pentagon/AddPentagon.cs:31-38 | stores the canvas; nothing is captured or cached yet |
| AddPentagonCommand.AddPentagon.Create | Task2/Project/Shapes/Commands/Pentagon/AddPentagon.cs:22-38 | a missing canvas gives the `ArgumentNullException` whose parameter name is "Canvas is null." (the one-string constructor takes a parameter name; its message is the .NET default); otherwise a new command on that canvas, named "Pentagon added" |
| AddPentagonCommand.AddPentagon.SortIndicesForVertices | Task2/Project/Shapes/Commands/Pentagon/AddPentagon.cs:59-79 | stores a new array holding exactly the first shortest ordering of the given points |
| AddPentagonCommand.AddPentagon.CaptureVertices | Task2/Project/Shapes/Commands/Pentagon/AddPentagon.cs:85-89 | captures the canvas vertices in canvas order and caches the ordering computed from their locations |
| AddPentagonCommand.AddPentagon.BuildPentagon | Task2/Project/Shapes/Commands/Pentagon/AddPentagon.cs:90-95 | a new pentagon of five points, with the point of captured vertex i at index key[i]; the key array left as 0..4 |
| AddPentagonCommand.AddPentagon.Execute | Task2/Project/Shapes/Commands/Pentagon/AddPentagon.cs:83-99 | first call: captures the vertices and places vertex i's point at index p[i] of the new pentagon, p the first shortest ordering; later calls: reuse the capture and give the points in capture order; always: the canvas becomes its non-vertex shapes followed by the new pentagon, and the counter 0 |
| AddPentagonCommand.AddPentagon.UnExecute | Task2/Project/Shapes/Commands/Pentagon/AddPentagon.cs:103-111 | removes the pentagon once and appends the first four captured vertices in capture order; sets the counter to 4 |
| AddPentagonCommand.ExecuteThenUnExecute | Task2/Project/Shapes/Commands/Pentagon/AddPentagon.cs:83-111 | after Execute then UnExecute the canvas holds its other shapes in order followed by the first four of its five vertices, and the counter is 4 |
| AddPentagonCommand.RoundTripLosesFifthVertex | Task2/Project/Shapes/Commands/Pentagon/AddPentagon.cs:106-110 | after that round trip the canvas has four vertices, the fifth captured vertex is not on it, and its other shapes are unchanged |
| AddPentagonCommand.InversePlacementExample | Task2/Project/Shapes/Commands/Pentagon/AddPentagon.cs:91 | for the ordering 0,2,3,1,4 the pentagon's points are those of vertices 0,3,1,2,4, not the visiting order 0,2,3,1,4 |

## Left out

- `Vertex.GetDistance(a, b)` is assumed to depend only on the locations of
  `a` and `b`: the model measures between the captured vertices' locations.
- `Vertex.GetDistance` is not part of this model. The measure is a parameter
  `dist`, and distances are reals. Floating-point rounding is not modelled, so
  ties decided by rounding may differ.
- The `double.MaxValue` start value of the search is "no candidate yet"
  (`None`). The two choose differently only when every one of the 120 cycle
  lengths is `double.MaxValue` or more: the C# search then keeps index 0, the
  model the first smallest score. A NaN score, which the C# `<` never
  accepts, cannot occur among real-valued scores.
- `Vertex`, `Pentagon` and `Canvas` are not part of this model beyond what the
  command uses. What the model says about them is an assumption, not read from
  their code. They are modelled as:
  - a vertex as a shape with a location;
  - a pentagon as a shape with a point list;
  - the canvas's shape list as a `seq` of shape references with list
    semantics for `Add`, `Remove` and `RemoveAll`;
  - shapes compared by identity, that is, no shape class overrides equality.
  Canvas events and drawing are not modelled. The model has no canvas
  constructor: a canvas is only ever given to the command.
- The static `Vertex.CountVertices` is modelled as the canvas field
  `countVertices`. Other canvases sharing the static, and whatever else
  updates it, are not modelled; only the command's own assignments are.
- Permutations.GetPermutations: requires `length >= 1`. With length 0 the source
  recurses without end; the command only calls it with 5.
- Lazy evaluation of the LINQ sequences is not modelled. They are materialised
  with `ToArray()` before use, so only their values matter.
- ArraySort.SortKeysAndItems: models `Array.Sort(keys, items)` only for keys
  that are a permutation of 0..n−1. The command only ever sorts such keys. The
  .NET sort algorithm is not modelled, and neither is its behaviour on
  duplicate keys.
- AddPentagonCommand.AddPentagon.UnExecute: requires an earlier `Execute`.
  Without one the source throws `NullReferenceException` on
  `arrUnsortedVertices`; that exception is not modelled.
- AddPentagonCommand.AddPentagon.Execute: requires exactly five vertices on the
  canvas when the ordering is not yet cached. With fewer, the source throws
  `IndexOutOfRangeException` while scoring; with more, it builds a pentagon with
  extra points. Neither path is modelled.
- `Name` is an expression-bodied property in C#; the model holds its value,
  "Pentagon added", in a constant field, and `Create` states it.
- The `ICommand` interface is not part of this model, and neither is the undo
  stack that calls `Execute` and `UnExecute`.
- Task4/Project/Task4/Task4/Program.cs, Task5/Project/TaxiDriver/Context/DriverContext.cs
  and Task5/Project/TaxiDriver/Entities/Route.cs belong to other programs of the
  repository. They are not part of this model.
