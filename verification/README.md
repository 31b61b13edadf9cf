# Biplan: models and proofs of its core algorithms

Dafny models of the algorithms behind an Istanbul event catalog: resolving which
provider listings are one venue and one session, caching and materialising
search results over time, comparing and evaluating search plans, bounded search
over uncertain answers, and spending provider budgets safely. Each model follows
the branches, constants and error cases of the code it cites; the lemmas say what
the code is for.

`dafny verify dfyconfig.toml` checks the whole project.

## How it is laid out

| file | models | from |
|---|---|---|
| UnionFind.dfy | union-find with path compression and member lists, and the variant without lists | collector/identity/resolve.ts, collector/identity/jev.ts |
| GuardedClustering.dfy | joining along a list of edges unless two members clash, for any clash; collecting components | the shape shared by the three clusterings |
| Listings.dfy, Sessions.dfy | the pairwise identity rules, the decision list and the accepted-pair loop | collector/identity/resolve.ts |
| Judgments.dfy | the calibrated-judgment pass over resolved sessions | collector/identity/jev.ts |
| PairRules.dfy | the same pairwise decisions read off the fields of two listings and their title family | collector/identity/resolve.ts |
| Identity.dfy | what both passes deliver, stated on sessions and decisions alone | collector/identity/resolve.ts, collector/identity/jev.ts |
| VenueReasons.dfy | why two listings are candidates for one venue, read off the listings | collector/identity/resolve.ts |
| VenueLinks.dfy, VenueGrid.dfy, VenueNames.dfy, VenueEdges.dfy, Venues.dfy | bucket, grid and name edges; joining venues with conflict representatives | collector/identity/resolve.ts |
| Conditions.dfy, Plans.dfy | three-valued evaluation of condition trees, their canonical form, plan acceptance | web/lib/plan-evidence.ts, web/evals/golden-v1.ts |
| PlanMeaning.dfy, FormLaws.dfy | the same evaluation read off the event, and the laws of the canonical form | web/lib/plan-evidence.ts, web/evals/golden-v1.ts |
| Spelling.dfy | the bounded edit distance | web/lib/input-spelling.ts |
| Beam.dfy | the beam over uncertain answers | web/lib/input-interpreter.ts |
| LiteralTitles.dfy, TitleMeaning.dfy | masking quoted titles, and which titles a text has | web/lib/input-literals.ts |
| ProjectionCache.dfy | projections reused until the next boundary | web/lib/prepared-publication-search.ts |
| SearchCatalog.dfy, Offers.dfy | the materialised catalog and its merged offers | web/lib/materialized-catalog.ts |
| AuditedIndex.dfy, IndexRuns.dfy, WindowAccounts.dfy | the durable call budget of audited indexing, all its interleavings, and what its window counts over a run | web/lib/audited-index.ts |
| QueryPacer.dfy | the rolling-window pacer of query embeddings | web/lib/query-embedding.ts |
| GoldenBudget.dfy | the write-ahead budget of the golden runner, with crashes | web/evals/golden-cache.ts |
| ServingArtifact.dfy, ServingMeaning.dfy | the serving artifact's encoder and decoder, and which texts they write and read | web/lib/publication-serving-artifact.node.ts |
| Sha256.dfy | the synchronous SHA-256 against FIPS 180-4 | contracts/hash.ts |
| Sorting.dfy, Selection.dfy, Buckets.dfy, HostNumbers.dfy | a stable sort, picking and grouping list members, safe integers and dates standing for the host's | |

Code that changes things step by step is a class or a method with loops, proved
against a specification function or a guarded run; what the code promises is then
proved about that function. Where the code is itself a
function, a second reading in terms of the input alone is proved equal to it:
PairRules, VenueReasons, PlanMeaning, TitleMeaning, ServingMeaning, and the parts
of AuditedIndex, GoldenBudget, SearchCatalog and ProjectionCache headed "read off".
Protocols (IndexRuns, QueryPacer, GoldenBudget) are
step relations over durable state, one transaction or one locked file access to a
step, and their theorems speak of every state of every run.

## What is assumed

- Listings are already in the order of their unique identifiers
  (collector/identity/resolve.ts:886-892), so comparing identifiers is comparing
  positions. Texts after normalisation are data: title keys, seeds, policies and
  location evidence are fields, and word-level title containment is an arbitrary
  predicate.
- Coordinates, distances, prices and charges are real numbers. The cosine is an
  arbitrary function; the grid result needs it to be at least 0.7 between usable
  latitudes and a degree to be at least 111,000 metres. Beam scores may be
  rounded by any addition that keeps order, and times in the projection cache by
  any rounding that is exact up to two to the 53rd and keeps order.
- Digests that name things (a window, an attempt, a session) are modelled by what
  they are taken of, so there they are taken not to collide. ServingArtifact models
  the digest as a function and excludes no collision: its results say which one a
  forger would have found. It needs that encodings and compression can be undone
  (ServingArtifact.Faithful) and that digests have one length
  (ServingArtifact.DigestsHaveOneLength).
- Strings are compared by an arbitrary total order where pairs are tried in the
  order of their keys, and listing identifiers do not contain the key separator.
- Clocks are numbers supplied by the caller. The protocols of AuditedIndex and
  QueryPacer need a clock that does not go back; QueryPacer.SteppingBackOverfills
  shows why. The projection cache needs nothing of its clock.
- Characters are Unicode scalar values, so text always has a UTF-8 form.
- A publication is not changed while its projections are cached.

## Where the code and its documentation differ

- The comment at web/evals/golden-v1.ts:107 says that companions never filter an
  event. The evaluation at web/lib/plan-evidence.ts:325-329 does filter on
  children and family. The models follow the code, and
  Conditions.CanonicalFormIsFaithfulExactlyWithChildren gives the exact condition.

## Model

| member | source | states |
|---|---|---|
| UnionFind.DisjointSet.constructor | collector/identity/resolve.ts:32-35 | Every index starts in a class of its own and is its own member list. |
| UnionFind.DisjointSet.Find | collector/identity/resolve.ts:36-45 | Terminates, returns the class root, and path compression leaves every root and every member list as it was. |
| UnionFind.DisjointSet.Union | collector/identity/resolve.ts:46-56 | Exactly the two classes become one, whose root is the smaller of the two roots; member lists stay exact. |
| UnionFind.DisjointSet.Members | collector/identity/resolve.ts:57-59 | The list holds exactly the class of the index, each member once, after any finds and unions. |
| UnionFind.RootIsSmallest | collector/identity/resolve.ts:36-56 | A root is the smallest index of its class, because links only ever point to smaller indexes. |
| UnionFind.CompressKeepsRoots | collector/identity/resolve.ts:39-43 | Pointing any index straight at its root changes no index's root. |
| UnionFind.LinkJoins | collector/identity/resolve.ts:50-52 | Linking one root under a smaller one redirects exactly the indexes of the first class. |
| UnionFind.JoinedLists | collector/identity/resolve.ts:52-54 | Appending one member list to the other lists the joined class exactly, without duplicates. |
| UnionFind.SessionSets.Find | collector/identity/jev.ts:394-403 | The forest without member lists keeps every root under compression. |
| UnionFind.SessionSets.Union | collector/identity/jev.ts:404-407 | Joins exactly two classes under the smaller root. |
| GuardedClustering.RunKeepsCompatible | collector/identity/resolve.ts:794-821 | Whatever edges are tried in whatever order, no two members of one component clash, for any symmetric pairwise test. |
| GuardedClustering.EdgesAreSettled | collector/identity/resolve.ts:360-394 | At the end an edge lies inside one component if and only if its two components hold no clashing pair. |
| GuardedClustering.RunKeepsBlocked | collector/identity/resolve.ts:801-818 | Components that may not be joined when an edge is refused may never be joined later. |
| GuardedClustering.RunCoarsens | collector/identity/resolve.ts:794-821 | Members once together stay together. |
| GuardedClustering.LabelsFollowEdges | collector/identity/resolve.ts:360-394 | A property shared along every edge is shared by every component. |
| GuardedClustering.LaterEdgesChangeNothing | collector/identity/resolve.ts:783-792 | An edge's fate is decided when it is tried: edges tried afterwards never change whether its ends are together. |
| GuardedClustering.CollectComponents | collector/identity/resolve.ts:822-828 | Grouping by root lists every component once, in order of its first member, and every index in exactly one. |
| Sessions.IndexesOfExact | collector/identity/resolve.ts:720-730 | A bucket holds exactly the listings of one city and instant; an unreadable instant is alone. |
| Sessions.BuildBuckets | collector/identity/resolve.ts:720-730 | The loop builds exactly those buckets. |
| Sessions.DecideBucket | collector/identity/resolve.ts:734-782 | Within a bucket a decision is recorded for exactly the pairs the rules speak about, and accepted pairs are exactly the merging ones. |
| Sessions.DecideAll | collector/identity/resolve.ts:731-782 | Over all buckets the list holds one decision for every decided pair, and nothing else. |
| Sessions.CrossCheck | collector/identity/resolve.ts:798-808 | The provider test and the cross-pair test together find a reason exactly when some cross pair is not accepted, and say which. |
| Sessions.CheckDecidesStep | collector/identity/resolve.ts:793-821 | The check reads the decision list as already edited by earlier demotions, and still decides exactly what the unedited verdicts decide. |
| Sessions.TryPair | collector/identity/resolve.ts:794-821 | One pair: joined, left alone inside a session, or demoted to a graph rule, with the decision list kept in step. |
| Sessions.JoinAccepted | collector/identity/resolve.ts:793-821 | After the loop the components are those of the guarded run and every decision says what became of its pair. |
| Sessions.ContainmentNeverDisplacesExactMatches | collector/identity/resolve.ts:783-792 | Title containment, tried last, never changes whether an exact or reviewed match joins two sessions. |
| Sessions.DecisionsDescribeSessions | collector/identity/resolve.ts:715-875 | A decided pair is published as merging if and only if both listings are in one session; an accepted pair that ends apart is published as a veto whose reason holds between the two final sessions; sessions have unique providers and only accepted pairs. |
| Sessions.GraphRulesMarkDemotions | collector/identity/resolve.ts:793-821 | A graph rule is published for exactly the accepted pairs whose listings end in different sessions, always as a veto, and the collision or the missing approval it names is there between those sessions. |
| Sessions.AcceptedIsSameOccasion | collector/identity/resolve.ts:603-679 | A pair is accepted only when instant, city and resolved venue agree. |
| Sessions.SessionsShareOneOccasion | collector/identity/resolve.ts:715-875 | All members of a session share instant, city and venue. |
| Sessions.ResolveSessions | collector/identity/resolve.ts:715-875 | The whole pass: decisions, the accepted pairs with exact and reviewed matches before containment matches and each kind by position, joining, and components, against the guarded run. |
| PairRules.AssessedByFields | collector/identity/resolve.ts:590-679 | Which rule decides two listings, and with which outcome, read off their instants, cities, providers, venues, attendance windows, policies, titles and seeds: ten situations, each with its own rule. |
| PairRules.AssessedOnce | collector/identity/resolve.ts:590-679 | The ten situations exclude each other: only one decision fits two listings. |
| PairRules.TagsSeparate | collector/identity/resolve.ts:681-713 | The tags of a title family differ for two listings exactly when the family mixes audiences, else formats, else adaptations, and the two do not both name the same one. |
| PairRules.DecidedByFields | collector/identity/resolve.ts:735-781 | A pair is compared exactly when its listings share a readable instant and a city and either share a venue or match; its decision is the one read off the two listings, unless the title family separates a pair that would merge. |
| PairRules.AcceptedByFields | collector/identity/resolve.ts:735-781 | Two listings are accepted as one session if and only if nothing read off them speaks against it, a title, seed or containment match speaks for it, and their title family does not separate them. |
| Judgments.JudgeAmbiguous | collector/identity/jev.ts:456-483 | Only unresolved decisions are judged: one judged different becomes a veto with the rule of calibrated differences, every other decision stays as it was, and the approved pairs are collected once each. |
| Judgments.ComponentListings | collector/identity/jev.ts:497-502 | The listings of a component are exactly those of its sessions. |
| Judgments.Reject | collector/identity/jev.ts:513-529 | A rejection is found exactly when providers repeat or some cross pair is approved neither deterministically nor by judgment, and names which. |
| Judgments.JoinApproved | collector/identity/jev.ts:503-536 | Every approved edge ends either merged inside one component or rejected across two, never both and never neither, and the recorded reason is true of the two final components: they hold listings of one provider, or two listings approved neither by rule nor by judgment. |
| Judgments.AccountSurvives | collector/identity/jev.ts:503-536 | Whatever is joined later, a merged edge stays inside one component and a rejected edge keeps both its rejection and its reason. |
| Judgments.PairKeyNamesLesserFirst | collector/identity/jev.ts:386-387 | The key by which approved pairs are sorted is the same both ways round and names the lesser identifier first. |
| Judgments.SortApproved | collector/identity/jev.ts:492-495 | Approved edges are tried in the order of their string keys: the same edges, each once, ordered. |
| Judgments.PublishApprovals | collector/identity/jev.ts:538-549 | Each approved decision is rewritten to a safe merge or a rejection according to what the loop recorded. |
| Judgments.ResolveIdentityWithJev | collector/identity/jev.ts:442-571 | The whole judgment pass over the deterministic resolution. A decision that was not unresolved is published unchanged; an unresolved one judged different is a veto, one left undecided keeps its outcome and rule, and an approved one is a judged merge when its listings end together and an unresolved rejection when they end apart, then for a reason that holds between the two final sessions, so the redundant-edge fallback is unreachable. |
| Judgments.JudgedSessionsAreSafe | collector/identity/jev.ts:485-536 | After judgment every pair inside one final session is approved deterministically or by judgment, and its providers differ. |
| Judgments.JudgedDecisionsDescribeSessions | collector/identity/jev.ts:538-571 | A decided pair is published as a merge, by rule or by judgment, if and only if both listings end in one session. |
| Judgments.JudgedSessionsShareOneOccasion | collector/identity/jev.ts:551-568 | Taking instant, city and venue from the first member is right: all members of a merged session share them. |
| Identity.ResolveIdentity | collector/identity/resolve.ts:590-875 | Sessions partition the listings. There is one decision for each compared pair and no other; each is what the fields of the two listings and their title family say, except that a pair which is to merge and ended apart is vetoed for a provider in both final sessions or a pair across them that is not to merge. Such a clash is the only reason that two listings which are to merge are not in one session. A decision joins its pair if and only if one session holds both. |
| Identity.ResolveIdentityJudged | collector/identity/jev.ts:442-571 | After judgments the same holds for every pair the rules decide, and an ambiguous pair is published as the judge said: vetoed, left as it was, merged when its listings end together, or rejected when they end apart. An approved pair is rejected only when its two sessions hold one provider or a pair across them that is not approved, and approval never bypasses provider uniqueness or the compatibility of all pairs of a session. |
| Identity.LabelledPartition | collector/identity/resolve.ts:822-828 | Groups by label put every listing in exactly one group and two listings together exactly when their labels agree. |
| Identity.RegroupedPartition | collector/identity/jev.ts:551-568 | Regrouping sessions by their final root shares exactly the listings whose sessions ended together. |
| Venues.ConflictIsSymmetric | collector/identity/resolve.ts:344-361 | Disjoint locations, distant coordinates and different ids of one provider conflict both ways round. |
| Venues.ConflictByFields | collector/identity/resolve.ts:363-385 | Two listings conflict exactly when they state districts or sides without a common one, known points more than 1,000 m apart, or different ids of one provider. |
| Venues.RepresentativesSuffice | collector/identity/resolve.ts:350-394 | Testing one representative for each distinct evidence finds a conflict exactly when testing all pairs of members would. |
| Venues.RepresentativesClash | collector/identity/resolve.ts:363-385 | The nested loops report a conflict exactly when some pair of representatives conflicts. |
| Venues.AdoptRepresentatives | collector/identity/resolve.ts:387-392 | The merged map represents the joined component. |
| Venues.TryEdge | collector/identity/resolve.ts:360-394 | One edge with representatives does what the guarded step does with full member lists. |
| Venues.JoinVenues | collector/identity/resolve.ts:337-394 | The whole loop leaves the components of the guarded run over full member lists. |
| Venues.VenuesHoldNoConflict | collector/identity/resolve.ts:360-394 | No venue holds two listings in conflict. |
| Venues.UnusedEdgesConflict | collector/identity/resolve.ts:360-394 | Every edge not used at the end still joins two venues that hold a conflicting pair. |
| Venues.VenueMembersAgree | collector/identity/resolve.ts:366-385 | In one venue no two locations are disjoint, no two points lie over 1,000 m apart, and no provider has two ids. |
| VenueGrid.NearPointsAreNeighbours | collector/identity/resolve.ts:172-178 | Two usable points within 75 m fall into the same or adjacent cells of the 0.001-degree grid, given a cosine of at least 0.7. |
| VenueGrid.ScanCell | collector/identity/resolve.ts:262-269 | Every near listing of a cell gets an edge of priority 3 or lower, and no other listing does. |
| VenueGrid.AddGeoEdges | collector/identity/resolve.ts:252-276 | The grid with its nine cells offers an edge of priority 3 for every pair in one city within 75 m that shares a name token, and offers nothing else. |
| Buckets.GroupByKey | collector/identity/resolve.ts:215-228 | Buckets hold exactly the listings with their key. |
| VenueLinks.BucketPlaces | collector/identity/resolve.ts:229-284 | Place by place: a bucket starts with the first of the listings alike, and each is followed by the next one. |
| VenueNames.OneExtension | collector/identity/resolve.ts:311-327 | Exactly one name group extends a name if and only if one name alone is a word longer, whoever bears it first. |
| VenueLinks.LinkAll | collector/identity/resolve.ts:303-310 | Below the limit every pair is linked; above it a chain and a hub connect the two groups; no other pair is offered. |
| VenueLinks.LinkSeeds | collector/identity/resolve.ts:239-251 | Offers exactly the pairs of one city with one reviewed venue seed whose places agree, at priority 1. |
| VenueLinks.LinkBuckets | collector/identity/resolve.ts:229-284 | Offers exactly: the first of the listings alike with each other one, and for equal written names also each with the next, at the given priority. |
| VenueNames.LinkNames | collector/identity/resolve.ts:290-334 | Offers exactly: at priority 4 the pairs of one distinctive name, at priority 5 a name and a longer one of the city with one word more, when no second name is so, the name has an identifying word, and a specific name gains no further identifying word; with over 4,096 pairs a chain and a hub stand for them. |
| VenueEdges.CollectEdges | collector/identity/resolve.ts:205-334 | A pair is collected if and only if its two listings give one of the six reasons, and its priority is exactly the best reason they give; every source is complete and every edge stays in one city. |
| VenueEdges.RankEdges | collector/identity/resolve.ts:335-336 | Every collected edge is listed once, before all edges of a worse priority and, at one priority, before those of later listings. |
| VenueEdges.ResolveVenues | collector/identity/resolve.ts:187-394 | The whole stage: points outside the province bounds dropped and nothing else changed, exactly the pairs with a reason collected at their best priority, ranked, and joined as by the guarded run. No venue holds listings that rule each other out, and an edge is left unused only between venues that do. |
| VenueEdges.VenuesStayInOneCity | collector/identity/resolve.ts:185-394 | All listings of a venue are in one city. |
| VenueEdges.NearListingsShareVenue | collector/identity/resolve.ts:252-394 | Two near listings sharing a name token end in one venue if and only if the two venues they would join hold no conflict. |
| Conditions.Operands | web/evals/golden-v1.ts:134-145 | Flattening terminates: each operand weighs no more than the child it came from. |
| Conditions.NegatedCombinationStatus | web/evals/golden-v1.ts:121-131 | Pushing a negation inwards keeps the three-valued status of every condition, at every polarity. |
| Conditions.OperandsMeaning | web/evals/golden-v1.ts:134-146 | Flattened operands decide a combination exactly when the original children do. |
| Conditions.CollapseMeaning | web/evals/golden-v1.ts:147-152 | Unwrapping a single remaining operand keeps the status. |
| Conditions.CanonicalMeaning | web/evals/golden-v1.ts:105-153 | The canonical form has the status of the original tree for every party size and polarity whenever children may attend the event. |
| Conditions.CanonicalFormMeaning | web/evals/golden-v1.ts:105-153 | For every event the canonical form means the tree with all companions taken as context. |
| Conditions.CanonicalFormIsFaithfulExactlyWithChildren | web/lib/plan-evidence.ts:325-329 | The form is faithful for every tree if and only if the event's child suitability is supported: companions do filter in evaluation, against the comment at web/evals/golden-v1.ts:107. |
| Conditions.ChildrenOnlyMatterWhenNamed | web/lib/plan-evidence.ts:323-384 | A tree without children or family as companions has the same status whatever the event's child suitability. |
| Conditions.CanonicalAtoms | web/evals/golden-v1.ts:105-153 | The form keeps exactly the atoms of the tree, up to the ticket ceiling's basis, and drops companions. |
| Conditions.EqualFormsDecideAlike | web/evals/golden-v1.ts:104-153 | Trees with equal forms and no child companions decide every event alike. |
| Plans.PartyGathering.Gather | web/lib/plan-evidence.ts:389-398 | Collects exactly the party counts reached through conjunctions. |
| Plans.PlanPartyCount | web/lib/plan-evidence.ts:387-400 | The count is the single joint one, or none. |
| Plans.PlanCheck.Visit | web/lib/plan-evidence.ts:421-464 | A visit succeeds exactly when every hard atom is checkable where it stands, and tallies parties, counts and group budgets. |
| Plans.ValidateSearchPlan | web/lib/plan-evidence.ts:415-475 | Accepts exactly the plans that are checkable, agree on one party count, and count it once when a group budget needs it. |
| Plans.AcceptedPartyCount | web/lib/plan-evidence.ts:387-400 | An accepted plan with a group budget has a party count, and it is the count of its one party atom. |
| Plans.EqualFormsSelectTheSameEvents | web/lib/plan-evidence.ts:402-413 | Two accepted plans with equal canonical forms and no child companions give every event the same verdict. |
| Plans.RepeatedPartyCountKeepsTheForm | web/evals/golden-v1.ts:147-152 | Repeating a party count leaves the canonical form alone. |
| Plans.RepeatedPartyCountChangesTheVerdict | web/lib/plan-evidence.ts:387-413 | But it loses the count and with it a group budget's verdict, so equal forms alone are not enough without acceptance. |
| PlanMeaning.AtomMeaning | web/lib/plan-evidence.ts:213-361 | What supports and what contradicts each atom, on numbers for all budget comparisons and group totals; an unnamed topic is contradicted under odd negation only. |
| PlanMeaning.ConditionMeaning | web/lib/plan-evidence.ts:337-384 | A condition is supported exactly when the event bears it out and contradicted exactly when the event rules it out, by two mutually recursive readings that swap at each negation; every other condition is unknown. |
| PlanMeaning.PartyCountMeaning | web/lib/plan-evidence.ts:387-400 | The party count of a plan is n exactly when one path through conjunctions, and only one, leads to a party atom, and that atom says n. |
| PlanMeaning.AllowedByPositions | web/lib/plan-evidence.ts:421-464 | The visit's conditions, place by place: every atom reached by some path can be checked there, and party sizes and companions only on paths through conjunctions. |
| PlanMeaning.AcceptedByPositions | web/lib/plan-evidence.ts:415-475 | A plan is accepted exactly when it is not by distance, every required atom can be checked where it stands, all party atoms say one count, and with a group budget exactly one place holds a party. |
| PlanMeaning.PlanVerdict | web/lib/plan-evidence.ts:402-413 | An event supports a plan exactly when it is not elsewhere and bears the plan out, and contradicts it exactly when it is elsewhere or rules the plan out. |
| PlanMeaning.UnnamedTopics | web/lib/plan-evidence.ts:346-361 | A topic the event does not name is unknown, its negation is supported, and its double negation is unknown again. |
| PlanMeaning.UnnamedTopicsInPlans | web/lib/plan-evidence.ts:337-413 | The same for the verdict on a whole plan. |
| PlanMeaning.PolarityOnlyMattersToUnnamedTopics | web/lib/plan-evidence.ts:346-361 | Every other atom, and every topic that is known or has evidence, has one status at both polarities, and negation negates it. |
| FormLaws.DeMorgan | web/evals/golden-v1.ts:121-131 | A negated combination has the form of the opposite combination of the negations. |
| FormLaws.OperandsDissolve | web/evals/golden-v1.ts:134-146 | Nested combinations of the same kind, negated ones of the opposite kind and double negations dissolve into the operands around them. |
| FormLaws.OrderAndRepetition | web/evals/golden-v1.ts:146-149 | Neither the order nor the repetition of operands changes a form. |
| FormLaws.SingleOperand | web/evals/golden-v1.ts:150-152 | A combination of one condition has the form of that condition. |
| FormLaws.CompanionsAreContext | web/evals/golden-v1.ts:107-108 | Who comes along drops out of a conjunction. |
| FormLaws.AtomForms | web/evals/golden-v1.ts:106-120 | Single atoms, and their negations, have equal forms exactly when both are companions or they agree up to whether a ceiling is per person or per ticket; a negated companion stays visible. |
| FormLaws.FormsAreNormal | web/evals/golden-v1.ts:105-153 | Every form negates only atoms and the trivial form, lists no single operand, and lists the trivial form in no conjunction. |
| FormLaws.EqualFormsMayDifferInside | web/evals/golden-v1.ts:134-152 | Equal forms can become different inside a larger condition: a disjunction of one conjunction has the conjunction's form but does not dissolve into a conjunction around it. |
| Spelling.NoScriptIsCheaper | web/lib/input-spelling.ts:68-94 | No sequence of keeps, replacements, insertions, deletions and neighbour swaps is cheaper than the recurrence. |
| Spelling.SomeScriptIsAsCheap | web/lib/input-spelling.ts:68-94 | Some such sequence costs exactly what the recurrence says. |
| Spelling.LengthsBoundDistance | web/lib/input-spelling.ts:69 | The distance is at least the difference in length, so the first early exit is sound. |
| Spelling.LaterRowsExceed | web/lib/input-spelling.ts:89 | Once a whole row exceeds the limit every later value does, although a swap reads two rows back. |
| Spelling.NextRow | web/lib/input-spelling.ts:73-88 | One row with rolling arrays holds the distances of that row and reports its minimum. |
| Spelling.EditDistance | web/lib/input-spelling.ts:68-94 | The exact distance when it is within the limit, and otherwise more than the limit but no more than the exact distance: the limit and one where the lengths alone differ by more. |
| Spelling.WithinLimit | web/lib/input-spelling.ts:130 | The comparison with the limit holds exactly when some edit script of at most that cost exists. |
| Spelling.ZeroMeansEqual | web/lib/input-spelling.ts:68-94 | Only equal words are at distance zero. |
| Beam.Search | web/lib/input-interpreter.ts:703-708 | After every question the beam is a best beam of the full product of options, for any order-keeping addition, rounded or exact. |
| Beam.StepKeepsBest | web/lib/input-interpreter.ts:704-708 | Extending, sorting and cutting to 24 loses nothing the full product would rank among the best. |
| Beam.BeamHoldsTheLargestScores | web/lib/input-interpreter.ts:703-708 | A beam that is not full holds every selection, and the selection at a rank is beaten only by those ranked before it. |
| Beam.BestScoresAreDetermined | web/lib/input-interpreter.ts:708 | The list of scores is determined by the questions alone, whatever ties do. |
| ProjectionCache.NextBoundary | web/lib/prepared-publication-search.ts:336-352 | The boundary is after now, is one of the considered instants, and no considered instant lies between. |
| ProjectionCache.CountsByFields | web/lib/prepared-publication-search.ts:241-251 | A listed term is usable exactly when it is on sale, was observed by then and not too long ago, and is within the dates it states. |
| ProjectionCache.AgeIsExact | web/lib/prepared-publication-search.ts:241-251 | The age test in doubles agrees with exact arithmetic for every instant and every cacheable age. |
| ProjectionCache.UsabilityIsConstant | web/lib/prepared-publication-search.ts:241-251 | From creation up to the boundary a term's usability does not change: what the safe-integer guards leave out lies beyond the last date. |
| ProjectionCache.ProjectionIsConstant | web/lib/prepared-publication-search.ts:329-352 | Nor does the projection of the whole publication. |
| ProjectionCache.Cache.Prepare | web/lib/prepared-publication-search.ts:393-406 | Each cached answer equals the uncached one, whatever the clock and ages of earlier calls, and shows exactly the readable sessions with a term that counts; requests that cannot be cached leave the cache alone. |
| ProjectionCache.Serve | web/lib/prepared-publication-search.ts:393-410 | Over any sequence of requests every answer is selected from exactly the readable sessions with a term on sale, with source and evidence, observed by then and young enough, and within its dates; each is described by exactly those terms, in order. |
| SearchCatalog.EntersExactlyWhenEverEligible | web/lib/materialized-catalog.ts:351-357 | The activation test keeps exactly the records that are eligible at some time from materialisation on. |
| SearchCatalog.ActiveExactly | web/lib/materialized-catalog.ts:377-379 | The active records are exactly the offered ones with readable dates that have not begun and were checked in the last 72 hours or at most five minutes ahead, each as often as in the list and in its order. |
| SearchCatalog.EnteringExactly | web/lib/materialized-catalog.ts:334-359 | Exactly the records without an ambiguous source that are current at some time from materialisation on enter, in order. |
| SearchCatalog.EligibilityIsConstant | web/lib/materialized-catalog.ts:364-371 | Eligibility changes only at the three listed thresholds. |
| SearchCatalog.Boundaries | web/lib/materialized-catalog.ts:361-373 | The boundaries are distinct, ascending, start at materialisation and include every later threshold of every member. |
| SearchCatalog.BuildVersions | web/lib/materialized-catalog.ts:360-421 | At every time from materialisation on the selected version is the resolution of the members active then; versions appear only where something changed. |
| SearchCatalog.BuildSearchCatalog | web/lib/materialized-catalog.ts:328-432 | Every family gets such versions within the size limit, or the limit is exceeded by versions that were really needed. |
| SearchCatalog.SelectVersion | web/lib/materialized-catalog.ts:443-448 | The loop selects the last version not after the request. |
| SearchCatalog.SearchCandidates | web/lib/materialized-catalog.ts:435-459 | From materialisation on the answer holds an event if and only if the request keeps it, as often as it occurs in the resolutions of the records of all families that are current then, and is in the given order; an earlier or unreadable time is refused. |
| Offers.UniqueOffers | web/lib/materialized-catalog.ts:113-132 | The list holds exactly the offers than which none of the same identifier was checked later, or then with an earlier text; every identifier once; and of any two the first comes by currency, then with a price, then cheaper, then by identifier. |
| Offers.SameOffersSameList | web/lib/materialized-catalog.ts:113-132 | The list depends only on the set of offers, not on the order or number of their sources. |
| AuditedIndex.SelectBatch | web/lib/audited-index.ts:277-290 | Documents in order within both caps, skipping only oversized ones, and stopping only when full or when the next one does not fit. |
| AuditedIndex.ControlStore.ReserveCall | web/lib/audited-index.ts:304-388 | One atomic transaction: refused without change for the first reason that holds of the records, in the order of the code, or both records written with the call counted, in flight, started now and remembered beside the starts of the last minute. |
| AuditedIndex.ControlStore.Settle | web/lib/audited-index.ts:403-431 | One atomic settlement: refused for any other flight; otherwise the tokens are added to both records unless the attempt is accounted for, the start remembers what it really used, and only a halted call stays in flight. |
| AuditedIndex.ReservesByRecords | web/lib/audited-index.ts:304-388 | The transaction reserves exactly when the records can be read, nothing is halted or in flight, window and run are the requested ones, the window runs, one more call stays within its call cap, 45 calls, 900,000 bytes and tokens of the run and 20,000 tokens a call of the window, the last start is 21 seconds ago and the last minute stays within 24,000; otherwise it names the first of these that fails. |
| IndexRuns.EveryStateIsSound | web/lib/audited-index.ts:304-431 | The invariant on both records, the flights and the holders holds in every state of every interleaving. |
| IndexRuns.OneCallInFlight | web/lib/audited-index.ts:304-388 | Two holders that may still call the provider are one, and theirs is the durable flight. |
| IndexRuns.CallsAreReservedOnce | web/lib/audited-index.ts:304-388 | Every provider call was reserved before, no attempt is reserved or paid twice, and call, byte and recent-start counters stay in bounds. |
| IndexRuns.ReservationsArePaced | web/lib/audited-index.ts:364-388 | One reservation: it starts at least 21 seconds after the last start of the window it carries on, and what that window remembers of the last minute stays within 24,000 bytes or tokens and three starts. |
| IndexRuns.TokensAreConserved | web/lib/audited-index.ts:415-430 | A run's tokens are the sum over its accounted attempts, however often settlements were repeated. |
| WindowAccounts.WindowTokensAreConserved | web/lib/audited-index.ts:319-428 | In every state of every run the window's tokens are the sum of what the settled flights charged to it used, each once, and its calls are their number; charged are the flights reserved since the last one that found no window, or another one that had expired. |
| WindowAccounts.StartsArePaced | web/lib/audited-index.ts:364-388 | Over the whole history of a run starts come in time order and lie at least 21 seconds apart, except where a start found another window that had expired; at every start its bytes and what its window's settled starts of the last minute used stay within 24,000. |
| WindowAccounts.ExpiryForgetsTheLastStart | web/lib/audited-index.ts:321-336 | That exception is real: a run whose second start follows the first by two milliseconds across an expired window. |
| IndexRuns.ThresholdDecides | web/lib/audited-index.ts:548-557 | In every state of every run a paid call may go on to publication exactly when its tokens leave its run within 900,000 and its window within 20,000 a call. |
| IndexRuns.SettlementsChargeOnce | web/lib/audited-index.ts:403-431 | The first settlement of a flight adds its tokens to run and window, frees the window or halts it with the flight in the air, and a later one adds nothing; one that publishes leaves both totals within their thresholds. |
| WindowAccounts.CallsAreMadeInTime | web/lib/audited-index.ts:459-465 | Every provider call of every run is made for the latest start, not before it, and before the window it was reserved under runs out. |
| IndexRuns.ReadersAcceptEveryRecord | web/lib/audited-index.ts:120-157 | The read-time checks accept every written record while the window is not halted, and exactly while the token count is a safe integer otherwise. |
| IndexRuns.HaltIsFinal | web/lib/audited-index.ts:308-312 | Once halted a window stays halted and nothing is reserved again. |
| IndexRuns.CrashClosesTheBudget | web/lib/audited-index.ts:308-312 | A crash between reservation and settlement leaves no holder able to pay and refuses every later reservation. |
| QueryPacer.Pacer.ReserveStart | web/lib/query-embedding.ts:107-120 | One reservation against the functional step. |
| QueryPacer.EveryRunIsSound | web/lib/query-embedding.ts:107-120 | In every run with a forward clock the remembered starts are the end of the history and future starts wait for the one a full window before; the sort changes nothing. |
| QueryPacer.WindowsHoldAtMostTheCalls | web/lib/query-embedding.ts:107-120 | Starts are granted in time order and no half-open window holds more than the allowed number. |
| QueryPacer.BusyOnlyWhenFull | web/lib/query-embedding.ts:116 | A request is turned away only when blocked or when every start within the longest wait would come too soon. |
| QueryPacer.NothingStartsInThePause | web/lib/query-embedding.ts:107-142 | After the provider has answered with too many requests, a request before the end of the pause changes nothing. |
| QueryPacer.OnlyAnswersBlock | web/lib/query-embedding.ts:107-142 | The pacer is blocked only until the end of a pause that follows such an answer. |
| QueryPacer.MemoryIsBounded | web/lib/query-embedding.ts:110 | The remembered list stays within a fixed bound. |
| QueryPacer.SteppingBackOverfills | web/lib/query-embedding.ts:108-118 | With a clock that steps back three starts fall into one window for two, breaking the spacing that every forward run keeps, so the forward clock is needed. |
| GoldenBudget.BudgetDirectory.Reserve | web/evals/golden-cache.ts:258-376 | Admission under the lock: refused for the first reason that holds of the files, or the ledger grows by exactly the admitted line. |
| GoldenBudget.BudgetDirectory.Settle | web/evals/golden-cache.ts:444-468 | Usage is appended, and an overrun halts all accounting. |
| GoldenBudget.AdmitsByFiles | web/evals/golden-cache.ts:258-376 | A request is admitted exactly when nothing is halted, both files hold one whole record to a line, its own key or a reviewed one is free, and what the provider's entries cost, at their usage where it is known and at their reservation elsewhere, leaves room under the cap for 0.12 dollars a million bytes or for two cents. |
| GoldenBudget.EveryStateIsSound | web/evals/golden-cache.ts:258-468 | The invariant on ledger, usage, lock and calls holds in every state of every run, with crashes during any write. |
| GoldenBudget.CallsAreReservedOnce | web/evals/golden-cache.ts:296-377 | Every provider call has an earlier durable reservation, and no attempt key is reserved or paid twice. |
| GoldenBudget.ReservationStaysWithinCap | web/evals/golden-cache.ts:355-367 | Each new reservation leaves settled and outstanding charges within the cap, whatever was overrun before. |
| GoldenBudget.ChargesStayWithinCap | web/evals/golden-cache.ts:332-367 | In every state charges exceed a cap by no more than settlements went over their own reservations. |
| GoldenBudget.SettlementRaisesOnlyByOverrun | web/evals/golden-cache.ts:436-468 | A settlement raises the total if and only if it is an overrun, and by exactly what it goes over. |
| GoldenBudget.ReadersAcceptWhatWasWritten | web/evals/golden-cache.ts:281-353 | The ledger checks reject only a ledger that does not parse, and the usage checks only unparsable usage. |
| GoldenBudget.UnreadableIsFinal | web/evals/golden-cache.ts:258-294 | A halted budget or an unparsable ledger stays so and admits nothing more. |
| GoldenBudget.HaltIsFinal | web/evals/golden-cache.ts:455-468 | After the halt nothing is reserved, paid or accounted for again. |
| GoldenBudget.OnlyOverrunsHalt | web/evals/golden-cache.ts:455-468 | The halt marker is written only right after a recorded settlement that went over its reservation. |
| GoldenBudget.LockIsHeldOrOrphaned | web/evals/golden-cache.ts:258-500 | In every state of every run the lock is free, held by the one process inside, or left behind by a crash or an interrupted write just before; then only its removal can follow. |
| GoldenBudget.OnlyInterruptedOverrunsRepeat | web/evals/golden-cache.ts:444-468 | A settlement goes over its reservation after an earlier one did only if the earlier one was cut short by a failed write, a failure or a crash right then; without that at most one settlement overruns. |
| GoldenBudget.LostNewlineAllowsOneMore | web/evals/golden-cache.ts:369-376 | A reservation whose newline was lost still counts, but the next line written after it makes the ledger unreadable. |
| GoldenBudget.AppendReads | web/evals/golden-cache.ts:369-376 | After an append a readable file is readable exactly when the record was not torn and the line before it had its newline; a torn record is never read. |
| LiteralTitles.AlphabeticIndex | web/lib/input-literals.ts:17-22 | The loop spells the number in bijective base 26. |
| LiteralTitles.LettersReadBack | web/lib/input-literals.ts:17-22 | Reading the letters gives the number back, so no two indexes share a spelling. |
| LiteralTitles.FreshToken | web/lib/input-literals.ts:117-120 | The search ends, because tokens outgrow the text, at the first token the upper-cased text does not contain. |
| LiteralTitles.ClosingQuote | web/lib/input-literals.ts:87-97 | The scan finds the first place the quotation may end. |
| LiteralTitles.Decide | web/lib/input-literals.ts:80-116 | One position: what the scan skips, masks or refuses is what the definition of titles says. |
| LiteralTitles.MaskLiteralTitles | web/lib/input-literals.ts:62-129 | Masks exactly the framed titles, refuses exactly the unfinished framed ones, uses pairwise distinct tokens absent from the text, and returns the pieces from which putting the quoted literals back rebuilds the text. |
| TitleMeaning.TitlesByQuotations | web/lib/input-literals.ts:77-129 | The titles that the scan finds are the framed ones among the quotations of the text: each from an opening mark to the first mark that closes it, none inside another; the scan gives up exactly when a framed opening mark outside them is never closed. |
| TitleMeaning.QuotationsOnce | web/lib/input-literals.ts:77-129 | A text has one such list of quotations. |
| TitleMeaning.TitlesOfText | web/lib/input-literals.ts:62-129 | So for every text the titles are determined by its quotation marks and the words around them. |
| TitleMeaning.ContainsByParts | web/lib/input-literals.ts:117-120 | A token is taken exactly when the text is something, the token and something. |
| ServingArtifact.Encode | web/lib/publication-serving-artifact.node.ts:48-70 | Succeeds exactly on headers and rows that fit, parse, ascend and match, and returns the compressed lines with their hashes. |
| ServingArtifact.Decode | web/lib/publication-serving-artifact.node.ts:83-120 | Accepts exactly the bytes that match the binding and whose lines pass every check, and returns the parsed rows. |
| ServingMeaning.EncodableByText | web/lib/publication-serving-artifact.node.ts:30-70 | An artifact is written exactly when its header and rows, each with a newline under a mebibyte, parse, the rows ascend, the header gives their number, their offers and the digest of their digests, and the text is within 128 mebibytes, and 32 compressed; what is written is the header and each row followed by a newline. |
| ServingMeaning.DecodableByText | web/lib/publication-serving-artifact.node.ts:83-120 | An artifact is read exactly when its bytes are the ones bound and their text is the bound header and rows without a newline in them, each ended by one, that parse, ascend, pass the reader and are described by the header; then it is exactly those rows. |
| ServingArtifact.RoundTrip | web/lib/publication-serving-artifact.node.ts:48-120 | An encoded artifact decodes under its own binding if and only if no line hides a newline and every row passes the reader. |
| ServingArtifact.RoundTripRows | web/lib/publication-serving-artifact.node.ts:48-120 | And then exactly the rows encoded come back. |
| ServingArtifact.AcceptedMatchesHeader | web/lib/publication-serving-artifact.node.ts:104-119 | Every accepted artifact, of any number of rows, publishes one session for each of its rows, the header's number of sessions and offers, and rows whose content root is the bound one. |
| ServingArtifact.AcceptedIsOrdered | web/lib/publication-serving-artifact.node.ts:107-116 | Published session identifiers strictly increase. |
| ServingArtifact.RootsAgreeExactly | web/lib/publication-serving-artifact.node.ts:30-32 | Two lists of rows have one content root if and only if their rows have the same digests or the root digests collide. |
| ServingArtifact.ContentRootDeterminesRows | web/lib/publication-serving-artifact.node.ts:30-32 | Two different lists of rows under one content root exhibit a collision: of what the roots digest, or of the rows at one position. |
| ServingArtifact.AcceptedUnderOneRootIsOne | web/lib/publication-serving-artifact.node.ts:83-120 | Two artifacts accepted under one content root hold the same rows, or their rows exhibit a collision. |
| ServingArtifact.SomeHostIsFaithful | web/lib/publication-serving-artifact.node.ts:25-32 | What is assumed of encodings, compression and digest lengths can be met. |
| Sha256.Hash | contracts/hash.ts:2-48 | The program's digest of every message is the standard's (FIPS 180-4, sections 5.1.1 and 6.2.2). |
| Sha256.RotateIsRotr | contracts/hash.ts:23 | Rotation with signed results is ROTR of section 3.2. |
| Sha256.ChooseIsCh | contracts/hash.ts:39 | Signed intermediates compute Ch. |
| Sha256.MajorityIsMaj | contracts/hash.ts:42 | Signed intermediates compute Maj. |
| Sha256.WordOfBytes | contracts/hash.ts:28 | Shifting and or-ing four bytes packs a big-endian word. |
| Sha256.FillSchedule | contracts/hash.ts:26-35 | The word array holds the message schedule, with sums of signed parts reduced modulo two to the 32nd. |
| Sha256.RunRounds | contracts/hash.ts:36-45 | The eight working variables follow the standard's 64 rounds. |
| Sha256.Pad | contracts/hash.ts:3-10 | The loops pad as section 5.1.1 asks. |
| Sha256.PaddingFillsBlocks | contracts/hash.ts:5-10 | The padded length is a multiple of 64 bytes and ends with the message length in bits. |
| Sha256.ConstantsAreCubeRoots | contracts/hash.ts:12-21 | Each of the 64 constants is the first 32 bits of the fraction of the cube root of its prime (section 4.2.2). |
| Sha256.InitialWordsAreSquareRoots | contracts/hash.ts:22 | The initial words are those fractions of square roots (section 5.3.3). |

## Left out

- Names and hashes of venues and sessions, evidence strings, input hashes and the final sort of published lists: only membership, outcomes and rules are modelled.
- Text normalisation, keyword tables, regular expressions and the seeds and policies read from them (collector/normalize/identity.ts, collector/identity/seed-overrides.ts): data to the model.
- Judgments.ResolveIdentityWithJev: takes the runner's answer for each pair as given; the runner's call ledger, its cache and its evidence records are not modelled.
- Plans.ValidateSearchPlan: says whether a plan is accepted, not which refusal is reported; recognised district and side names are an arbitrary predicate.
- Conditions.CanonicalMeaning: evidence texts of evaluated atoms are reduced to whether there are any.
- Beam.Search: treats the descriptions carried along, and everything done with the finished plans, as not part of the search.
- Spelling.WithinLimit: the candidate scan around it, with its suffixes, quoted ranges and lexicon, is not modelled.
- ProjectionCache.Cache.Prepare: choosing the offer and building the event from the usable terms is an arbitrary function of the session and those terms; cloning of cached events is not modelled.
- SearchCatalog.BuildSearchCatalog: takes the families and the resolution of a family's active members as arbitrary functions, and category correction as already done.
- IndexRuns.EveryStateIsSound: each transaction reads the clock once, where the code reads it several times within one; manual resumption of a halted window is not modelled.
- AuditedIndex.ControlStore.ReserveCall: the checkpoint pin, the lease and the audit blobs around a call are not part of this model.
- QueryPacer.EveryRunIsSound: needs at least one call per window and a window of positive length, as the configured limits have; the vector cache and the sharing of calls in flight are not modelled.
- GoldenBudget.BudgetDirectory.Reserve: takes the request as already validated and not answered from the cache; the document-mode limits and provider pacing are not modelled.
- GoldenBudget.EveryStateIsSound: a write either reaches the file whole, without its newline, or torn; other file faults are not modelled.
- LiteralTitles.MaskLiteralTitles: the words that frame or join titles are arbitrary predicates; scanning is by character, not by UTF-16 unit.
- ServingArtifact.Decode: reports that an artifact is refused, not with which message; regular-expression checks on fields are summed up in one flag.
- Sha256.Hash: returns the eight words; printing them as hexadecimal digits is not modelled.
- The paging loops of web/lib/publication-repository.ts and web/lib/catalog-reader.ts, the label ledger of web/lib/event-label-index.ts and the requirement edits of web/lib/requirements.ts: they repeat shapes proved here or would only add easy members.
- Providers, prompts, SQL, storage adapters, deadlines and abort signals, pages and metrics.
