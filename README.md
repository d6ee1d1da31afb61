# Access-list hierarchy and bot-instance store, in Dafny

This project models two parts of Teleport and proves properties of each.

**Access-list hierarchy** (`lib/accesslists/hierarchy.go`). An access list
has members and owners. A member or owner can itself be another access list,
so lists nest, and the nesting may be cyclic. The engine answers these
questions:
- who the members of a list are once nested lists are flattened;
- who owns a list;
- which lists a list inherits from, through `MemberOf` and `OwnerOf`;
- which roles and traits it inherits from them;
- whether a given user is a member or an owner of a list, explicitly or
  through a nested list;
- how deep the nesting goes, downwards and upwards.

**Bot-instance service** (`lib/services/local/bot_instance.go`). This model
covers:
- the header normalisation applied when an instance is created;
- the search filter and the sort check used when instances are listed;
- the guarded, bounded retry loop that patches a stored instance under
  optimistic concurrency.

Each core file keeps its own form. The Go code walks graphs recursively,
threads visited maps through the recursion and builds results in loops; it
becomes methods with loops and recursion. Each method is proved equal to a
recursive specification function, or given its property directly, and
lemmas prove what the specification promises. Two parts are pure in the
source, and pure here: `UserMeetsRequirements` (as a predicate with a
checking method) and `matchBotInstance`. `CreateBotInstance` updates a
message in place, so it is a method on a class.

Modules:
- `Outcomes`: error kinds, `Option`, `Result`, and `IsUserLocked`.
- `AccessListTypes`: lists, members, owners, requirements and grants. It
  also holds the accessor: access lists by name, and pages of members by
  list name.
- `Pagination`: `fetchMembers`.
- `Reachability`: paths in a graph given by a successor function.
- `Membership`: `GetMembersFor` and `getMembersFor`.
- `Ownership`: `GetOwnersFor`, `collectOwners` and `collectMembersAsOwners`.
- `Depth`: `maxDepthDownwards` and `maxDepthUpwards`.
- `Requirements`: `UserMeetsRequirements`.
- `Decisions`: `IsAccessListMember` and `IsAccessListOwner`.
- `Ancestors`: `GetAncestorsFor` and `collectAncestors`.
- `StringOrder`: Go string order, with `slices.Sort` and `slices.Compact` on
  strings.
- `InheritedGrants`: `GetInheritedGrants`.
- `BotInstances`, `BotInstanceSearch` and `BotInstancePatch`: the
  bot-instance service.

How the outside world is represented:
- **Accessor.** The accessor is a value. `GetAccessList` looks a name up in
  a map, and a missing name is `NotFound`. `ListAccessListMembers` answers
  a list's k-th page request with the k-th reply of that list's reply
  stream. A missing stream is a single `NotFound`. `WellFormed` says every
  stream ends, with an empty next token or an error.
- **Lock getter.** Per user, it answers either with an error or with
  whether the user holds a lock.
- **Clock.** The time is an integer parameter.
- **Visited maps.** The Go maps passed down the recursion (`visited`,
  `seen`, `owners`, `ancestors`) are set or map values. Each method takes
  them in and hands the updated value back.
- **Bot-instance store.** `CreateBotInstance` gets the store's create
  operation as a function parameter. `PatchBotInstance` gets the store's
  reply for each round: the instance read, the revision the stored instance
  has when the conditional write arrives, and the revision a successful
  write is given.

Three behaviours of the code are easy to overlook, and the model keeps
them:
- **Start list among its ancestors.** On a two-list `MemberOf` cycle A ⇄ B,
  `GetAncestorsFor(A, Member)` returns both B and A itself. B's `MemberOf`
  records A before the visited check stops the walk.
  `Ancestors.TwoCycleIncludesStart` proves this.
- **Missing parent in `maxDepthUpwards`.** The comment at the failing
  `GetAccessList` in `maxDepthUpwards` describes missing lists as counting
  for depth 0. The code returns the error, `NotFound` included, and the
  model does the same.
- **`NotFound` mid-stream.** When `fetchMembers` gets `NotFound` after
  earlier pages, it returns the members gathered so far, not an empty list.

## Model

| member | source | states |
|---|---|---|
| Outcomes.LockedIsDistinguishedDenial | lib/accesslists/hierarchy.go:246-262 | a locked-user error is also an access-denied error, and an ordinary access denial is not a locked-user error |
| Pagination.FetchMissing | lib/accesslists/hierarchy.go:91-96 | a list the backend does not know (NotFound on the first page) has no members, and that is not an error |
| Pagination.FetchCharacterized | lib/accesslists/hierarchy.go:87-106 | the fetch concatenates the pages up to the first page with an empty next token, or up to the first error: NotFound keeps what was gathered, any other error is returned |
| Pagination.FetchMembers | lib/accesslists/hierarchy.go:87-106 | the page loop returns exactly the fetch specification for the list |
| Membership.FlattenList | lib/accesslists/hierarchy.go:59-84 | the visited set only grows and gains the list's name; each list is fetched at most once; flattened members never have kind List |
| Membership.FlattenListReach | lib/accesslists/hierarchy.go:59-84 | every list the flattening visits is reachable from the start list through List-kind member entries |
| Membership.FlattenListSound | lib/accesslists/hierarchy.go:70-83 | every flattened member is a non-list direct entry of some list the call visited |
| Membership.FlattenListComplete | lib/accesslists/hierarchy.go:70-83 | every non-list direct entry of every list the call visited is in the result |
| Membership.FlattenListError | lib/accesslists/hierarchy.go:65-79 | an error is the fetch error of some list the call visited |
| Membership.GetMembersForExact | lib/accesslists/hierarchy.go:55-84 | from an empty visited set, the members are exactly the non-list entries of the lists reachable from the start list; the call fails iff the fetch of one of those lists fails, and then with that list's error |
| Membership.GetMembersFrom | lib/accesslists/hierarchy.go:59-84 | the recursive walk with its loop returns the flattening specification's members and visited set |
| Membership.GetMembersFor | lib/accesslists/hierarchy.go:55-57 | the entry point starts from an empty visited set |
| Ownership.AsOwner | lib/accesslists/hierarchy.go:148-155 | an owner made from a member keeps its name, is of kind User and has an empty ineligible status |
| Ownership.MembersAsOwnersExact | lib/accesslists/hierarchy.go:141-155 | for a list not yet visited, the list becomes visited; the derived owners are user owners named exactly after the non-list entries of the lists reachable from it (every derived owner names such an entry, every such entry names a derived owner); the derivation fails exactly when fetching a reachable list fails, with that fetch's error |
| Ownership.PutAllKeyed | lib/accesslists/hierarchy.go:127-129 | storing owners keeps every owner under its own name, and adds exactly the names of the stored owners |
| Ownership.PutAllProvenance | lib/accesslists/hierarchy.go:127-129 | each stored owner is either an earlier owner under that name or one of the owners just stored |
| Ownership.PutAllCovers | lib/accesslists/hierarchy.go:127-129 | storing owners never drops a name, and stores every owner given |
| Ownership.CollectKeyedByName | lib/accesslists/hierarchy.go:109-133 | collecting keeps the owners map keyed by owner name: at most one owner per name |
| Ownership.CollectProvenance | lib/accesslists/hierarchy.go:115-130 | every collected owner is an earlier one, a direct non-list owner of the list, or a derived owner made from a member of one of its owner lists |
| Ownership.CollectComplete | lib/accesslists/hierarchy.go:115-130 | on success, every direct user owner and every member of every unvisited owner list appears under its name |
| Ownership.CollectMembersAsOwners | lib/accesslists/hierarchy.go:136-158 | the method returns the specification's owners and visited set |
| Ownership.PutOwners | lib/accesslists/hierarchy.go:127-129 | the loop stores the owners in order |
| Ownership.CollectOwners | lib/accesslists/hierarchy.go:109-133 | the recursive collection returns the specification's error, owners map and visited set |
| Ownership.GetOwnersFor | lib/accesslists/hierarchy.go:164-174 | the result holds exactly the collected owners, at most one per name, or the collection's error |
| Depth.DepthDownBounded | lib/accesslists/hierarchy.go:176-210 | the downward depth is at most the number of lists the backend has member pages for that are not already on the chain, so cycles do not inflate it |
| Depth.DepthDownEntriesBounded | lib/accesslists/hierarchy.go:192-205 | the depth contributed by a run of entries is at most one more than that bound |
| Depth.DepthDownEntriesMax | lib/accesslists/hierarchy.go:192-205 | the depth over a run of entries is the maximum of the nested lists' depths plus one: each is below it, and one attains it unless it is 0 |
| Depth.DepthDownIsMax | lib/accesslists/hierarchy.go:176-210 | below an unvisited list, the depth is one more than its deepest nested member list, each measured with the list on the chain |
| Depth.MaxDepthDownwards | lib/accesslists/hierarchy.go:176-210 | the recursive walk returns the downward depth; on success `seen` is handed back unchanged, and on error the depth is 0 and the error is the specification's |
| Depth.DepthUpBounded | lib/accesslists/hierarchy.go:212-244 | the upward depth is at most the number of stored lists not on the chain, plus one for a start list that is not stored |
| Depth.DepthUpParentsBounded | lib/accesslists/hierarchy.go:224-239 | the depth contributed by a run of parents is at most one more than the number of stored lists not on the chain |
| Depth.DepthUpParentsMax | lib/accesslists/hierarchy.go:224-239 | the depth over a run of parents is the maximum of the parents' depths plus one; it is positive when there is a parent |
| Depth.DepthUpIsMax | lib/accesslists/hierarchy.go:212-244 | above an unvisited list, the depth is one more than its deepest `MemberOf` parent; a list with a parent has depth at least 1 |
| Depth.MaxDepthUpwards | lib/accesslists/hierarchy.go:212-244 | the recursive walk returns the upward depth, with `seen` handled as downwards; a failed parent lookup is an error |
| Requirements.RoleSet | lib/accesslists/hierarchy.go:401-405 | the role lookup set holds exactly the user's roles |
| Requirements.TraitSets | lib/accesslists/hierarchy.go:414-424 | the trait lookup map has the user's trait keys, each with exactly that key's values |
| Requirements.UserMeetsRequirements | lib/accesslists/hierarchy.go:400-441 | true iff every required role is among the user's roles, and every required trait key is present with every required value among the user's values for it |
| Requirements.MeetsRequirementsMonotone | lib/accesslists/hierarchy.go:400-441 | a user with more roles and trait values still meets what a user with fewer met |
| Decisions.Guarded | lib/accesslists/hierarchy.go:335-345 | with a lock getter, a locked user gets Unspecified with an error matched by `IsUserLocked`, and a lock lookup error gets Unspecified with that error, before any entry is examined; otherwise the entries decide |
| Decisions.ScanDecides | lib/accesslists/hierarchy.go:352-396 | the first granting entry decides, with no error; if none grants, the result is Unspecified with the last denial recorded, or none |
| Decisions.ScanGrants | lib/accesslists/hierarchy.go:352-396 | a denial never stops the scan: if any entry grants, the result is the grant of the first granting entry at or before it |
| Decisions.ScanFrom | lib/accesslists/hierarchy.go:352-396 | an assignment other than Unspecified is the grant of some entry |
| Decisions.MemberCheckSound | lib/accesslists/hierarchy.go:354-393 | Explicit means a matching unexpired User entry and the list's membership requirements met; Inherited means an unexpired List entry whose list the user belongs to, and the outer requirements met; either way there is no error |
| Decisions.MemberCheckComplete | lib/accesslists/hierarchy.go:354-393 | a user who meets the list's membership requirements through an unexpired entry anywhere in the list is a member with no error; the entry is the user's own User entry or a List entry whose nested check made the user a member, and denials by earlier entries do not stop the scan |
| Decisions.IsAccessListMember | lib/accesslists/hierarchy.go:327-397 | the method returns the lock check in front of the membership decision; nested calls pass no lock getter |
| Decisions.MemberEntryVerdict | lib/accesslists/hierarchy.go:355-392 | one member entry's pass through the loop grants, denies with the error it records, or passes exactly as the entry's verdict in the membership specification says |
| Decisions.OwnerCheckSound | lib/accesslists/hierarchy.go:286-322 | Explicit means a matching User owner and the ownership requirements met; Inherited means a List owner the user is a member of, and the requirements met; no error either way |
| Decisions.OwnerCheckComplete | lib/accesslists/hierarchy.go:286-322 | a user who meets the ownership requirements through any owner entry is an owner with no error; the entry is the user's own User entry or an owner list whose membership check made the user a member |
| Decisions.IsAccessListOwner | lib/accesslists/hierarchy.go:266-323 | the method returns the lock check in front of the ownership decision |
| Ancestors.RecordOwnerOf | lib/accesslists/hierarchy.go:463-469 | every `OwnerOf` list is recorded as an ancestor with its stored value, or the lookup error is one found above the start list |
| Ancestors.VisitParents | lib/accesslists/hierarchy.go:471-491 | each `MemberOf` parent is visited (and for the Member kind recorded), everything added is a true ancestor, and an error comes from a lookup above the start list |
| Ancestors.VisitParent | lib/accesslists/hierarchy.go:472-490 | visiting one `MemberOf` parent either fails with an error from a lookup above the start list, or leaves the parent visited and stored (and, for the Member kind, recorded), while everything it adds is a true ancestor |
| Ancestors.CollectAncestors | lib/accesslists/hierarchy.go:454-495 | the walk only adds true ancestors with their stored values; on success every visited list is fully handled |
| Ancestors.WalkComplete | lib/accesslists/hierarchy.go:454-495 | a finished walk from the start list has recorded every ancestor, and no lookup above the start list fails |
| Ancestors.CollectValues | lib/accesslists/hierarchy.go:450 | collecting the map's values yields each stored list once |
| Ancestors.GetAncestorsFor | lib/accesslists/hierarchy.go:445-452 | for Member, the ancestors are exactly the lists reachable through one or more `MemberOf` edges; for Owner, exactly the `OwnerOf` lists of the start list and of its transitive `MemberOf` parents; each once, with its stored value; it fails iff a lookup on the way fails, and then with that error |
| Ancestors.TwoCycleIncludesStart | lib/accesslists/hierarchy.go:482-491 | on a two-list `MemberOf` cycle, both lists are Member ancestors of the start list |
| StringOrder.StrLessTransitive | lib/accesslists/hierarchy.go:546-551 | Go's string order is transitive |
| StringOrder.StrLessTotal | lib/accesslists/hierarchy.go:546-551 | Go's string order is total |
| StringOrder.SortStrings | lib/accesslists/hierarchy.go:546 | sorting gives an ordered permutation of the input |
| StringOrder.Compact | lib/accesslists/hierarchy.go:547 | compacting keeps the same strings, and on a sorted input the result is strictly increasing |
| StringOrder.SortedSet | lib/accesslists/hierarchy.go:546-547 | sort then compact: strictly increasing, with exactly the input's strings |
| InheritedGrants.AddRoles | lib/accesslists/hierarchy.go:507-512 | the roles loop only appends, appends each new role once, and keeps the lookup set in step |
| InheritedGrants.AddTraitValues | lib/accesslists/hierarchy.go:517-522 | the values loop adds exactly the new values of one key, once each, and leaves the other keys alone |
| InheritedGrants.AddGrants | lib/accesslists/hierarchy.go:506-524 | after `addGrants`, the roles and trait values are the old ones plus the grant's, without duplicates |
| InheritedGrants.AddAll | lib/accesslists/hierarchy.go:531-544 | after the ancestor loop, the collected roles and trait values are exactly those of the grants seen so far |
| InheritedGrants.SortTraits | lib/accesslists/hierarchy.go:549-552 | each trait's values become strictly increasing, with the same values |
| InheritedGrants.GrantsOfAncestors | lib/accesslists/hierarchy.go:526-544 | the Member ancestors' grants and the Owner ancestors' owner grants hold exactly the inherited roles and trait values |
| InheritedGrants.GetInheritedGrants | lib/accesslists/hierarchy.go:498-555 | roles are sorted without duplicates and are exactly the inherited roles; each trait's values are sorted, without duplicates, non-empty, and exactly the inherited values; an error is a failed lookup above the list, and there is one iff such a lookup fails |
| BotInstances.Normalized | lib/services/local/bot_instance.go:72-79 | kind becomes `bot_instance`, version `v1`, a missing header is created and the name becomes the instance id; the revision, spec and status are kept |
| BotInstances.NormalizedIdempotent | lib/services/local/bot_instance.go:72-79 | normalising twice is normalising once, and an already-normalised instance is unchanged |
| BotInstances.NormalizedForgetsHeader | lib/services/local/bot_instance.go:72-79 | what is stored depends only on the instance's spec, status and revision: whatever kind, version or name the caller set is overwritten |
| BotInstances.CreateBotInstance | lib/services/local/bot_instance.go:71-84 | the caller's message is normalised in place, then handed to the store under its bot's name |
| BotInstanceSearch.SearchedHeartbeat | lib/services/local/bot_instance.go:135-139 | the heartbeat searched is the last of the latest heartbeats when there are any, else the initial one |
| BotInstanceSearch.MatchBotInstance | lib/services/local/bot_instance.go:124-153 | false when a bot name is given and differs from the instance's; otherwise true for an empty term; otherwise true iff some search field (bot name, instance id and, with a heartbeat, hostname, join method, version, `v`+version) contains the term, ignoring case |
| BotInstanceSearch.MatchIgnoresCase | lib/services/local/bot_instance.go:150-152 | terms that lower-case to the same string find the same instances |
| BotInstanceSearch.MatchLowered | lib/services/local/bot_instance.go:150-152 | a term and its lower-case form find the same instances |
| BotInstanceSearch.MatchShorterTerm | lib/services/local/bot_instance.go:150-152 | any piece of a term finds every instance the term finds |
| BotInstanceSearch.MatchFindsOwnFields | lib/services/local/bot_instance.go:141-148 | an instance of the bot is found by its instance id, its bot name, and its heartbeat's version with or without the `v` |
| BotInstanceSearch.MatchSeesLatestHeartbeatOnly | lib/services/local/bot_instance.go:135-152 | once a heartbeat has been reported, the initial heartbeat and earlier reports are not searched: instances with the same spec and the same latest heartbeat match exactly the same searches |
| BotInstanceSearch.UnderPrefixIsMatching | lib/services/local/bot_instance.go:109-115 | with an empty term, the bot's key prefix selects exactly the instances the filter would keep |
| BotInstanceSearch.MatchingUnderPrefix | lib/services/local/bot_instance.go:109-119 | filtering the bot's prefix listing gives the filter over every instance |
| BotInstanceSearch.ListBotInstances | lib/services/local/bot_instance.go:99-122 | BadParameter iff a sort other than `bot_name` ascending is given; otherwise the instances `matchBotInstance` keeps, in store order |
| BotInstancePatch.ConditionalUpdate | lib/services/local/bot_instance.go:200-208 | a write succeeds, with the new revision, iff the stored revision still equals the one it carries; a concurrent change is CompareFailed |
| BotInstancePatch.GuardError | lib/services/local/bot_instance.go:189-198 | the guard passes iff name, revision, instance id and bot name are unchanged; otherwise BadParameter naming the first changed field |
| BotInstancePatch.PatchFrom | lib/services/local/bot_instance.go:176-214 | a patch sends at most one write per remaining round, so at most three |
| BotInstancePatch.Round | lib/services/local/bot_instance.go:179-211 | only a write refused with CompareFailed retries, and only after the function rewrote the read and the guard let it through; a round that ends the patch writes at most once, and succeeds only when the store accepted its write, returning it at the lease's revision |
| BotInstancePatch.PatchFromWrites | lib/services/local/bot_instance.go:184-211 | every instance written is the update function applied to that round's read, with the identifying fields unchanged; every write but the last was refused with CompareFailed; a success is the last write, accepted by the store, returned with the lease's revision |
| BotInstancePatch.PatchRejectsIdentityChange | lib/services/local/bot_instance.go:189-198 | an update changing name, revision, instance id or bot name ends the patch with BadParameter and no write in that round |
| BotInstancePatch.PatchGivesUp | lib/services/local/bot_instance.go:176-214 | when a concurrent writer intervenes in every round, the patch writes once per round and ends with CompareFailed |
| BotInstancePatch.PatchSucceedsUncontended | lib/services/local/bot_instance.go:200-211 | a round whose write meets no concurrent change ends the patch with the update at the new revision |
| BotInstancePatch.PatchStopsOnOtherErrors | lib/services/local/bot_instance.go:179-208 | an error other than CompareFailed, from the read, the update function or the write, ends the patch in that round with that error |
| BotInstancePatch.PatchKeepsName | lib/services/local/bot_instance.go:189-191 | if the stored instances are named after their instance id, so is everything a patch writes or returns |
| BotInstancePatch.TryRound | lib/services/local/bot_instance.go:179-211 | one pass of the loop body, with its early returns and its `continue` on CompareFailed, ends exactly as `Round` says |
| BotInstancePatch.PatchRounds | lib/services/local/bot_instance.go:178-214 | the retry loop from any round on returns what `PatchFrom` gives for that round, after the writes already made |
| BotInstancePatch.PatchBotInstance | lib/services/local/bot_instance.go:171-215 | the method returns the result and the writes of `PatchFrom` from round 0, so every property proved of `PatchFrom` holds of it |

## Left out

- Decisions.IsAccessListMember: requires a rank on list names that goes down along every List-kind member entry the accessor resolves, anywhere in the accessor. Any cycle of nested member lists therefore excludes every query, even a cycle the query cannot reach. The source is more permissive. It keeps no visited set, but it returns at the first entry that grants (lib/accesslists/hierarchy.go:367 and :391). So it runs forever only when its scan reaches a List entry, before any entry of that list grants, whose nested check leads back to a list already on the call chain. Example: with A = [User u, List B] and B = [List A], asking about u on A returns Explicit without fetching B. The model does not cover such terminating queries on cyclic accessors.
- Decisions.IsAccessListOwner: has the same rank precondition, for the membership checks it makes on owner lists (lib/accesslists/hierarchy.go:307). It excludes every query on an accessor with a member-list cycle anywhere. The source runs forever only when a membership check on an owner list, reached before any owner entry grants, does so as described for IsAccessListMember.
- Ancestors.GetAncestorsFor: requires that the accessor returns, under each name, a list with that name. The walk keys ancestors and visited entries by name, and a mismatched name has no meaning in the source.
- InheritedGrants.GetInheritedGrants: has the same precondition, for the ancestor walks it makes.
- Ancestors.GetAncestorsFor: the result order is left open, because it follows Go's map iteration order. The contract states the result as a set.
- Ownership.GetOwnersFor: the result order is left open for the same reason.
- Depth.MaxDepthDownwards: after an error, the names added to `seen` on the failing path stay there. The contract says only that the depth is 0 and gives the error.
- Depth.MaxDepthUpwards: the same holds after an error.
- BotInstanceSearch.ToLower: lower-cases ASCII letters only. Unicode case mapping in `strings.ToLower` is not modelled.
- BotInstanceSearch.ListBotInstances: returns a single page. The page size, the start key and the next-page token are not modelled. The store is a sequence of instances in key order.
- BotInstancePatch.WithRevision: creates a missing header before setting the revision. Go would dereference nil at that point.
- BotInstances.CreateBotInstance: the header is a value here. Aliasing of the header pointer with other messages is not modelled.
- Pages of members are identified by position in the list's reply stream, not by the token text.
- Error messages are not kept; only the kind of each error is.
- `context.Context` cancellation is not modelled.
- The real clock and lock store are replaced by parameters.
- A nil `Spec` or `Status` in a message is not modelled; Go would panic there.
- The backend of the bot-instance service is represented only by its replies. This covers `generic.ServiceWrapper`, key prefixes, marshalling and validation.
- `GetBotInstance`, `DeleteBotInstance` and `DeleteAllBotInstances` are single calls into that backend, and are not modelled.
- The update function given to `PatchBotInstance` is a pure function of the instance it receives.
- The rest of the repository is not part of this model: the `tbot` service, the web UI hook, generated protobuf code and tests.
