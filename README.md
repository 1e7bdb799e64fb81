# Per-plane pixel hit clustering of a pixel luminosity telescope

This project models, in Dafny, the clustering engine of the offline analysis
of a silicon pixel telescope, and proves properties of it. For one sensor
plane in one event, a `Plane` collects pixel hits (row, column, charge,
channel, read-out chip). `Clusterize` makes one pass over the hits. It seeds
a cluster at every hit that no hit in its 3x3 window beats on charge. Each
cluster holds the seed followed by every hit on one of the seed's four
diagonal cells, in hit-list order.
The project also models the part of the pulse-height program that consumes
the clusters. Planes with ROC above 2 or channel above 99 are skipped. A
plane is identified by `10*channel + ROC`, and each cluster's charge is
filled into the "All" histogram of its id and into the 1-, 2- or 3-pixel
histogram when it has that many hits.

Files and modules:

- `hits.dfy`, module `Hits`: the hit record and the sum of hit charges.
- `clusters.dfy`, module `Clusters`: a cluster as an ordered list of indices
  into the plane's hit list, with `AddHit`, `NHits` and `Charge`.
- `clustering.dfy`, module `Clustering`: the reference definitions. It holds
  the two adjacency rules (the 3x3 window for seeds, diagonals only for
  growth), the local-maximum test, the cluster grown from a seed, the
  clustering pass, and the lemmas about them.
- `plane.dfy`, module `Planes`: the class `Plane` with its hit and cluster
  lists and its channel and ROC fields. Its methods are proved against the
  reference definitions.
- `pulse_heights.dfy`, module `PulseHeights`: the plane filter, the id
  encoding and its decoding with C++ truncating division, and the map from
  ids to four buckets filled per cluster.
- `scenarios.dfy`, module `Scenarios`: a client that fills and clusters a
  plane, and worked hit sets with their exact clusters.

Modelling decisions:

- Charges are `int`. The source sums `double` charges and returns a `float`.
- A cluster refers to hits by index into the plane's hit list. So the same
  hit can be a member of several clusters, as in the source, where clusters
  hold non-owning pointers.
- `PLTCluster::Charge` is not part of this model's sources. It is modelled
  as the sum of the member charges. That is an assumption taken from how the
  pulse-height program uses it, not a property of code shown here.
- The constructor leaves channel and ROC unset, as the source does. The
  plane invariant says only that, once a hit has been added, they equal the
  last hit's channel and ROC.
- A histogram is modelled as the list of charges filled into it. Its count
  is the list's length.

Behaviours of the code that the model keeps:

- Clusters of one pass are not deduplicated. A hit diagonal to two seeds is
  a member of both clusters: `SharedMember` and `SharedNeighbour`.
- `Clusterize` does not clear the plane's cluster list. It appends the
  clusters of the pass to whatever clusters are already there:
  `Plane.Clusterize`.
- A 3x3 block with charge 500 at the centre and 100 on the eight other cells
  gives exactly one cluster, the centre and its four corners:
  `CentredBlock` and `BlockCluster`.

## Model

| member | source | states |
|---|---|---|
| Hits.SumChargesAppend | src/PLTPlane.cc:33-36 | the running sum over a concatenation is the sum of the two parts' totals |
| Hits.SumChargesPermutation | src/PLTPlane.cc:30-38 | the plane charge does not depend on the order in which hits were added |
| Clusters.Cluster.AddHit | src/PLTPlane.cc:56-64 | adding a member appends it at the end and keeps the earlier members |
| Clusters.Cluster.NHits | bin/PulseHeights.cc:93 | the hit count of a cluster is its number of members |
| Clusters.Cluster.Charge | bin/PulseHeights.cc:95-97 | assumed cluster charge (the sum of member charges): an empty member list has charge 0 and a one-member cluster has that hit's charge |
| Clusters.ChargeAddHit | bin/PulseHeights.cc:93-95 | assumed cluster charge: appending a member adds exactly that hit's charge |
| Clustering.InSeedWindowIsDistanceOne | src/PLTPlane.cc:80-87 | the two clauses of the seed test describe exactly the 8 cells at chessboard distance 1; a hit at the same row and column is never in the window |
| Clustering.DiagonalInSeedWindow | src/PLTPlane.cc:61-87 | every growth neighbour is in the seed window, and growth admits no orthogonal neighbour |
| Clustering.IsLocalMaxByDistance | src/PLTPlane.cc:76-90 | a hit is a seed exactly when no hit at chessboard distance 1 has strictly more charge; ties do not disqualify |
| Clustering.SamePositionNeverCompared | src/PLTPlane.cc:80-87 | adding a hit at the candidate seed's own position, whatever its charge, never changes the seed test |
| Clustering.MaxChargeIsLocalMax | src/PLTPlane.cc:76-90 | a hit of maximal charge on the plane always passes the seed test |
| Clustering.DiagonalIndicesSpec | src/PLTPlane.cc:61-66 | the growth scan collects exactly the diagonal neighbours of the seed, each once, in hit-list order |
| Clustering.SeedCluster | src/PLTPlane.cc:55-69 | a grown cluster has at least one member and refers only to hits of the plane |
| Clustering.SeedClusterMembers | src/PLTPlane.cc:50-72 | a grown cluster is the seed first, then every diagonal neighbour and nothing else in ascending hit order; no later member shares the seed's row or column |
| Clustering.SeedsSpec | src/PLTPlane.cc:97-101 | the pass seeds exactly the hits that pass the seed test, in hit-list order |
| Clustering.SeedsCount | src/PLTPlane.cc:97-101 | the number of seeds equals the number of hits that pass the seed test |
| Clustering.ClusterPassSpec | src/PLTPlane.cc:94-104 | the pass appends one cluster per seed, the k-th grown from the k-th seed |
| Clustering.ClusterCountIsLocalMaxima | src/PLTPlane.cc:94-104 | the number of clusters a pass appends equals the number of local maxima |
| Clustering.NonEmptyPlaneHasCluster | src/PLTPlane.cc:76-104 | a pass over a plane with at least one hit appends at least one cluster |
| Clustering.SharedMember | src/PLTPlane.cc:62-100 | a hit diagonal to two seeds is a member of both clusters |
| Clustering.IsolatedHitIsSingleton | src/PLTPlane.cc:59-89 | a hit with nothing in its window is a seed and forms a one-member cluster |
| Planes.Plane.constructor | src/PLTPlane.cc:4-7 | a new plane has no hits and no clusters; channel and ROC are not set |
| Planes.Plane.AddHit | src/PLTPlane.cc:20-27 | appends the hit at the end, leaves earlier hits and all clusters unchanged, and takes over the hit's channel and ROC |
| Planes.Plane.Charge | src/PLTPlane.cc:30-38 | returns the sum of the charges of all hits on the plane, and changes nothing |
| Planes.Plane.Channel | src/PLTPlane.cc:42-46 | once a hit has been added, returns the channel of the last added hit |
| Planes.Plane.ROC | src/PLTPlane.cc:149-153 | once a hit has been added, returns the ROC of the last added hit |
| Planes.Plane.AddClusterFromSeed | src/PLTPlane.cc:50-72 | appends exactly one cluster, the one grown from the seed; hits, channel and ROC unchanged; always returns true |
| Planes.Plane.IsBiggestHitIn3x3 | src/PLTPlane.cc:76-90 | returns true exactly when no hit in the 3x3 window has strictly more charge |
| Planes.Plane.Clusterize | src/PLTPlane.cc:94-104 | keeps the existing clusters and appends the clusters of one pass over the hits; the hits are unchanged |
| Planes.Plane.NHits | src/PLTPlane.cc:124-128 | the number of hits added so far |
| Planes.Plane.Hit | src/PLTPlane.cc:131-135 | the i-th added hit, for an index below the hit count |
| Planes.Plane.NClusters | src/PLTPlane.cc:138-141 | the number of clusters built so far |
| Planes.Plane.Cluster | src/PLTPlane.cc:144-147 | the i-th cluster, which has a seed and refers only to hits of the plane |
| PulseHeights.Accepted | bin/PulseHeights.cc:56-63 | a plane is kept exactly when its ROC is at most 2 and its channel at most 99 |
| PulseHeights.PlaneId | bin/PulseHeights.cc:65-66 | the id of a kept plane with non-negative channel and ROC is a number of at most three digits |
| PulseHeights.TruncDiv | bin/PulseHeights.cc:116 | C++ division by a positive divisor, truncating toward zero, bracketed by the dividend |
| PulseHeights.TruncMod | bin/PulseHeights.cc:117 | C++ remainder: dividend = quotient * divisor + remainder, with the remainder taking the dividend's sign |
| PulseHeights.DecodeId | bin/PulseHeights.cc:116-117 | every id is the encoding of its decoded channel and ROC, and the decoded ROC is a single signed digit |
| PulseHeights.DecodeEncode | bin/PulseHeights.cc:66-117 | for an accepted plane with non-negative channel and ROC, decoding its id gives back its channel and ROC |
| PulseHeights.NegativeRocDoesNotRoundTrip | bin/PulseHeights.cc:56-117 | the filter lets a negative ROC through, and then the id does not decode back (channel 1, ROC -1 decodes as channel 0, ROC 9) |
| PulseHeights.PadIndexInRange | bin/PulseHeights.cc:116-122 | for an accepted plane with non-negative numbers, the drawing pad ROC+1 is one of the canvas's pads 1 to 3 |
| PulseHeights.EmptyBuckets | bin/PulseHeights.cc:68-74 | a new id starts with four empty histograms |
| PulseHeights.FillCluster | bin/PulseHeights.cc:95-102 | a cluster's charge is appended to bucket 0 and to bucket k (1 to 3) exactly when the cluster has k hits; other buckets are unchanged |
| PulseHeights.FillClusters | bin/PulseHeights.cc:90-103 | filling n clusters adds n entries to bucket 0, and buckets 1 to 3 together stay no larger than bucket 0 |
| PulseHeights.FillClustersSpec | bin/PulseHeights.cc:90-103 | bucket 0 receives every cluster's charge in order; bucket k (1 to 3) receives one entry per cluster of exactly k hits |
| PulseHeights.SizeBucketsBounded | bin/PulseHeights.cc:96-102 | each cluster lands in at most one of buckets 1 to 3, so their counts together never exceed the cluster count |
| PulseHeights.PulseHeightMap.constructor | bin/PulseHeights.cc:46 | the histogram map starts empty |
| PulseHeights.PulseHeightMap.AddPlane | bin/PulseHeights.cc:56-103 | skips a plane with ROC > 2 or channel > 99 and changes nothing; otherwise it fills the plane's clusters into the buckets of its id, creating them only the first time the id is seen; keeps bucket 0's count equal to the clusters seen for the id and buckets 1 to 3 no larger |
| Scenarios.ClusterEvent | src/PLTPlane.cc:20-104 | hits added one by one and clustered once give one cluster per local maximum, and a plane identity that is the last hit's |
| Scenarios.SingleHit | src/PLTPlane.cc:94-104 | a lone hit gives one one-member cluster with that hit's charge |
| Scenarios.TwoIsolatedHits | src/PLTPlane.cc:94-104 | two hits outside each other's window give two one-member clusters |
| Scenarios.ChainSeeds | src/PLTPlane.cc:76-90 | a low hit diagonally between two higher ones loses the seed test, and both higher hits pass it |
| Scenarios.SharedNeighbour | src/PLTPlane.cc:62-100 | two seeds with a common diagonal neighbour both take it into their clusters |
| Scenarios.StackedDiagonalHits | src/PLTPlane.cc:59-66 | two hits on the same diagonal cell of a seed are both members of its cluster, after the seed and in hit-list order |
| Scenarios.OrthogonalNeighbourLeftOut | src/PLTPlane.cc:61-87 | an orthogonal neighbour loses the seed test against the seed but is not grown into its cluster |
| Scenarios.TiedNeighboursBothSeed | src/PLTPlane.cc:81-84 | two diagonal neighbours of equal charge are both seeds, and each is in the other's cluster |
| Scenarios.BlockSeeds | src/PLTPlane.cc:76-90 | in a 3x3 block with the highest charge at the centre, the centre is the only hit that passes the seed test |
| Scenarios.BlockCluster | src/PLTPlane.cc:50-72 | the block centre's cluster is the centre and the four corners, with charge 900 |
| Scenarios.CentredBlock | src/PLTPlane.cc:94-104 | the 3x3 block gives exactly one cluster |

## Left out

- `PLTPlane::DrawHits2D` (src/PLTPlane.cc:108-121): it only builds and fills a ROOT 2D histogram for display.
- The destructor and pointer ownership (src/PLTPlane.cc:10-16, 22): hits and clusters are values here, so there is no memory to release.
- Clusters as objects: a cluster is a value built locally and then appended. The model does not capture that the source's clusters are heap objects reachable through pointers, since the core never changes a cluster after storing it.
- Planes.Plane.Charge: computes an exact integer sum. The source sums in `double` and narrows to `float`, and that rounding is not modelled.
- Planes.Plane.AddClusterFromSeed: takes the seed as an index into the plane's hits. A seed hit that is not on the plane cannot be passed. The only caller, `Clusterize`, always passes a hit of the plane.
- Planes.Plane.Channel: before any hit is added, it promises nothing, because the source reads an uninitialised field.
- Planes.Plane.ROC: before any hit is added, it promises nothing, for the same reason.
- 32-bit integer overflow in the row and column differences and in `10*Channel + ROC`: integers are unbounded here. Grid coordinates and accepted channels are small.
- PulseHeights.DecodeEncode: requires non-negative channel and ROC, which the source's filter does not check. `NegativeRocDoesNotRoundTrip` shows that the round trip fails without that requirement.
- Histogram binning (100 bins over 0 to 65000), titles, colours and drawing (bin/PulseHeights.cc:69-73, 112-138): a histogram is the list of the charges filled into it.
- The canvas map, canvas creation, pad division and image export (bin/PulseHeights.cc:47, 75-83, 122, 140-144): these are visualisation. `PadIndexInRange` keeps only the pad-index bound.
- The event reader and the loops over events, telescopes and planes (bin/PulseHeights.cc:43-54): file I/O through classes that are not part of this model. `PulseHeightMap.AddPlane` is the body of the plane loop.
- The warning messages printed for rejected planes (bin/PulseHeights.cc:57, 61): output only.
- `main` in both programs, and bin/PLTDatToWave.cc as a whole: argument handling, text-file reading and plotting.
- PLTHit, PLTCluster and PLTPlane.h are not part of this model. The hit is a plain record, and a cluster is a member list with the operations the plane and the pulse-height program use.
