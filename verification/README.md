# Verified models of curlpro's core

curlpro is an HTTP client that writes requests as a browser does. This project models the parts of it
that carry state, protocol or arithmetic, and proves what they keep over every input and every run.
`dafny verify dfyconfig.toml` checks it all.

| files | what they model |
|---|---|
| `hpack_*.dfy` | the HPACK encoder with browser-chosen representations, its tables, and the decoder |
| `async_*.dfy` | the registry of asynchronous calls, one call at a time and in every interleaving |
| `ready_event.dfy` | the handle an event loop waits on, with a non-atomic drain |
| `blink_*.dfy` | Blink's header map: its hash, its probing, its layout, the cache of layouts |
| `cache_*.dfy` | the HTTP cache: freshness, Vary, the memory store, bodies stored as they end, whole runs |
| `flow_*.dfy` | the patched HTTP/2 receive windows, with readers, closes and the read loop interleaved |
| `ech_*.dfy` | the encoded inner hello of ECH: encoding, both expansions, padding, the PSK's binder |
| `header_merge.dfy` | one header order out of many recorded ones |
| `altsvc.dfy` | how long a failed HTTP/3 attempt keeps the next one off |
| `crypto_assembly.dfy` | a TLS message out of CRYPTO fragments |
| `profile_*.dfy` | names for imported profiles |
| `basics.dfy` | definitions several of these share |

Code that runs in several threads is a transition system whose steps are the critical sections,
channel operations, system calls and unlocked reads; its theorems are about every run. Code that
updates objects, arrays or loop variables is classes and methods proved against functions, and the
theorems are about those functions.

## Main results

- **HPACK.** Whatever the policy, the name rule, the Huffman setting and the fields, a decoder that
  starts from the encoder's table reads back exactly the fields and ends with exactly its table
  (`HpackRoundTrip.BlockRoundTrip`); an add that evicts the entry the name refers to is no exception. Among
  the bytes that would read so, the policy, the name rule and the Huffman setting fix those written: which
  entry is meant (`HpackChoices.FoundPlace`, `NameRuleMeaning`), each field's kind and each string's form
  (`HpackForms.KindExactly`, `StringForm`), and the shortest integers (`VarIntShortest`).
- **Asynchronous calls.** With one take for each announced number, every take of a call nobody
  cancelled finds a frame, in the order kept and the answer last (`AsyncDelivery.EachTakeFindsAFrame`,
  `AllDeliveredAtRest`). Read off a run's own steps, the frames handed back are those that came while the
  work went on, and then the one it ended with (`AsyncHistory.DisciplinedHandsBack`,
  `AllHandedBackAtRest`). Each finished call is in one place, once (`EachCallEndsOnce`); one cancelled in
  flight is discarded, never announced (`CancelledInFlightIsDiscarded`). A handle is open exactly from its
  opening to its closing or its call's discard (`AsyncHandles.OpenExactly`). Without that discipline one
  frame is answered twice (`AsyncEarly.EarlyTakeAnswersTwice`).
- **Ready event.** A number in the queue means a raised handle or a thread that owes it
  (`ReadyEvent.NoLostWakeup`), and what is owed is paid in boundedly many steps (`DebtsArePaid`).
- **Blink map.** Triangular probing of a power-of-two table meets every bucket; the layout is the first
  spelling of every name, once (`BlinkFirsts.LayoutIsFirsts`), and repetitions do not matter. Its order is
  that of the buckets in the one table that eight buckets, first free buckets and doublings make
  (`BlinkOrder.LayoutOrder`, `LayoutUnique`), under a hash that gives the known values (`BlinkKnown`).
- **Cache.** Against an honest origin a run of the cache hands out what a client without one would get
  (`CacheTransparency.CacheIsTransparent`), with revalidation, late stores, loss and concurrency, if each
  request whose response is stored told what that varies on: with no empty value, or every name. It does
  answer: a fresh stored response is used without asking and a stale one is not
  (`CacheAnswers.DefaultAnswers`, `StoredIsUsed`), and nothing is stored that said not to be
  (`CacheExchanges.OnlyAllowedIsStored`).
- **Receive windows.** A stream's window, its unread, discarded and uncredited bytes always add up to the
  configured window, which the peer counts as the client does (`FlowStreams.StreamsConserve`). Both ends
  of the connection keep the same window, but for orphaned bytes, exactly while every addition the client
  does not check fits in 32 bits (`FlowMirror.MirrorExact`); so long a peer that keeps to its counts is
  never refused (`FlowMirror.PeerNeverRefused`). Streams are credited exactly past a threshold, and then in
  full (`FlowCredit.StreamCredit`).
- **Header order.** Merging recorded orders gives the least order that keeps them all, exactly when their
  pairs form no cycle (`HeaderMerge.Merge`).
- **ECH.** The client's and the server's expansions of an inner hello are the same bytes
  (`EchInner.StylesAgree`), and a parser finds in them the name inside, the suites and versions of TLS 1.3,
  and of the outer hello's extensions all that belong there, once (`EchContent.ServerSees`, `ContentTypes`,
  `ContentHolds`, `EchOffer.SuitesInOrder`); the binder covers the bytes it ends up in (`EchBinder.BinderCoversItself`);
  the padded length hides the name (`EchPadding.LengthHidesName`).

## Where the code does less than its comments say

Each of these is a lemma with the condition on which the code does keep its word.

- The comparison of Vary values reads a missing one as empty: it is equality exactly when no stored
  value is empty (`CacheVary.SameVaryExact`), and a stored response is used for the right requests
  exactly when its own carried no empty value or left no name out (`CacheVary.MatchesExact`).
- A 304 that changes Vary leaves the stored values as they were: what is kept picks the right requests
  exactly when they are what the new Vary would have given (`CacheVary.RevalidatedExact`).
- An Age of more nanoseconds than 64 bits hold makes an old response look new
  (`CacheFreshness.AgeMayWrap`); the computed age is right exactly up to that
  (`CacheFreshness.AgeExact`).
- A layout cached under names joined with NUL is the names' own if no name holds NUL
  (`BlinkCache.KeyDecides`); any list with a name that does shares its key with one of another layout
  (`BlinkCache.KeyNeedsNulFree`).
- The connection's first window wraps to a negative one exactly when `connFlow` is above
  2^31-1-65535 (`FlowConnection.FirstWindowExact`).
- A close returns unread bytes, and DATA for a forgotten stream is credited, without a look at whether
  the window could hold it; the peer is told in any case. A second close of one body returns its bytes
  again, so closing it over and over takes the peer's window past 2^31-1
  (`FlowRefusal.PeerWindowOverflows`), and for every configuration some run then refuses a peer that
  keeps to its counts (`FlowRefusal.SomePeerIsRefused`). The windows stay the same exactly while these
  additions fit (`FlowMirror.MirrorExact`), as they do in a run that has room for what closes return and
  forgotten streams are sent (`RoomFits`), and in any run without them whose first window fits
  (`FlowConnection.RoomWithoutCloses`).
- DATA for a stream already forgotten is credited without having been taken, so the client's window
  runs ahead of the peer's by those bytes. A connection can starve for good exactly when they reach half
  of `connFlow` (`FlowStarvation.OrphansStarve`, `StarvedStays`): a read then leaves the peer's window
  shut (`FlowMirror.ReadReopens`).
- A stream window of 16384 bytes or less is never credited (`FlowStreams.SmallStreamsStall`,
  `SmallStreamStalls`); any larger one is open again whenever a read has left nothing unread
  (`DrainedStreamIsOpen`).
- Credit can exceed what was read (`FlowStreams.CreditMayRunAhead`): it stays within it exactly when no
  refresh that credits meets a frame between window and pipe, or one thrown away (`RefreshExact` for one
  refresh, `CreditExact` for runs).
- Imported profiles get different names if no browser has a hyphen and no system one behind a dot
  (`ProfileNames.OutcomesDiffer`). A browser's hyphen with no dot after it is enough for a collision, and
  so is a system's behind one dot (`ProfileCollisions.HyphenCollides`, `DotAndHyphenCollide`).
- CRYPTO assembly returns a whole message exactly when bit 2 of its low length byte is clear, and
  otherwise drops its last four bytes, because `+` and `|` have one precedence in Go
  (`CryptoAssembly.WholeExact`).

## Model

| member | source | states |
|---|---|---|
| HpackVarInt.AppendVarInt | vendor/github.com/bogdanfinn/fhttp/http2/hpack/encode.go:202-214 | appends the prefix integer of section 5.1 of RFC 7541, and nothing before it changes |
| HpackVarIntLaws.VarIntRoundTrip | vendor/github.com/bogdanfinn/fhttp/http2/hpack/hpack.go:429-460 | a written prefix integer below the reader's limit is read back, whatever bits share its first byte and whatever follows |
| HpackVarIntLaws.ContinuationTooLong | vendor/github.com/bogdanfinn/fhttp/http2/hpack/hpack.go:447-458 | the reader refuses a continuation exactly when it is too long |
| HpackVarIntLaws.ReadContinuationBound | vendor/github.com/bogdanfinn/fhttp/http2/hpack/hpack.go:446-458 | what the reader accumulates never wraps in 64 bits |
| HpackForms.VarIntShortest | vendor/github.com/bogdanfinn/fhttp/http2/hpack/encode.go:202-214 | no bytes the reader takes for a number are fewer than those written |
| HpackTable.HeaderFieldTable.AddEntry | vendor/github.com/bogdanfinn/fhttp/http2/hpack/tables.go:56-61 | the entry becomes the newest; both maps then hold the newest id of each name and each pair |
| HpackTable.HeaderFieldTable.EvictOldest | vendor/github.com/bogdanfinn/fhttp/http2/hpack/tables.go:64-87 | the oldest n entries go, ids included, and the maps forget exactly the names and pairs no entry has any more |
| HpackTable.HeaderFieldTable.Search | vendor/github.com/bogdanfinn/fhttp/http2/hpack/tables.go:103-113 | finds the newest entry equal to the field, else the newest of its name; sensitive fields match by name alone |
| HpackTable.DynamicTable.Add | vendor/github.com/bogdanfinn/fhttp/http2/hpack/hpack.go:173-178 | the new table is the old one with the entry added and the oldest evicted until it fits |
| HpackTable.DynamicTable.Evict | vendor/github.com/bogdanfinn/fhttp/http2/hpack/hpack.go:180-187 | evicts as few entries as make the rest fit |
| HpackTableLaws.AddExact | vendor/github.com/bogdanfinn/fhttp/http2/hpack/hpack.go:173-187 | after an add the size field is the sum of the entries' sizes and not above the maximum |
| HpackTableLaws.EvictedExact | vendor/github.com/bogdanfinn/fhttp/http2/hpack/hpack.go:180-187 | eviction leaves the longest newest part that fits (sections 4.1 and 4.4 of RFC 7541) |
| HpackTableLaws.LastFits | vendor/github.com/bogdanfinn/fhttp/http2/hpack/hpack.go:173-187 | the entry just added is still there exactly when it alone fits |
| HpackEncoder.NewFirstStatic | scripts/patch-fhttp.py:699-707 | maps each name of the static table to the first index that has it, and no other name |
| HpackEncoder.Encoder.SetRepresentation | scripts/patch-fhttp.py:695-697 | changes how fields are written and nothing of the tables |
| HpackEncoder.Encoder.Search | vendor/github.com/bogdanfinn/fhttp/http2/hpack/encode.go:98-111 | the index and the match of searchTable over both tables |
| HpackEncoder.Encoder.NameOf | scripts/patch-fhttp.py:758-774 | the entry a literal refers to by the rule that is set |
| HpackEncoder.Encoder.AppendString | scripts/patch-fhttp.py:778-787 | appends the string literal that the setting asks for, whose form StringForm states |
| HpackEncoder.Encoder.WriteChosen | scripts/patch-fhttp.py:710-755 | writes the bytes of the chosen representation and leaves the dynamic table it leads to |
| HpackEncoder.Encoder.WritePlain | vendor/github.com/bogdanfinn/fhttp/http2/hpack/encode.go:54-90 | writes a field as upstream does when no representation is set |
| HpackEncoder.Encoder.WriteField | scripts/patch-fhttp.py:373-380 | one field by either path, with the bytes and the table of the specification |
| HpackEncoder.Encoder.WriteBlock | scripts/patch-fhttp.py:710-755 | a block of fields, one after another, on one table |
| HpackCodec.ChoiceSound | scripts/patch-fhttp.py:711-746 | an indexed choice stands for exactly the field, and a name index for an entry of that name |
| HpackChoices.NameRuleMeaning | scripts/patch-fhttp.py:758-774 | which entry each of the three rules picks: first static or newest, the oldest dynamic, or Go's own |
| HpackChoices.NameRuleNothing | scripts/patch-fhttp.py:758-774 | a literal refers to no entry exactly when no table has its name |
| HpackChoices.FoundPlace | scripts/patch-fhttp.py:711-746 | a field found whole is referred to at an entry equal to it, the last static or else the newest dynamic one, indexed or as a literal over it |
| HpackChoices.IndexedExactly | scripts/patch-fhttp.py:716-724 | a field goes indexed exactly when it is not sensitive, a table holds it and its mode allows it |
| HpackChoices.StoredExactly | scripts/patch-fhttp.py:726-735 | a field enters the dynamic table exactly when no table holds it, its mode allows it and it fits; then as the newest entry |
| HpackChoices.OnlyIndexableStored | scripts/patch-fhttp.py:726-735 | every entry of the dynamic table is one a field's mode allowed to be stored |
| HpackRoundTrip.StringRoundTrip | vendor/github.com/bogdanfinn/fhttp/http2/hpack/hpack.go:470-504 | a written string is read back, Huffman-coded or not |
| HpackForms.StringForm | scripts/patch-fhttp.py:778-787 | for every setting the high bit of a written string's first byte is set exactly when strings are always coded or the code is shorter; after the length stands the code, else the string |
| HpackForms.LiteralForm | scripts/patch-fhttp.py:710-755 | a literal is its index and, in that form, its name if no entry is referred to, and its value |
| HpackForms.KindExactly | scripts/patch-fhttp.py:716-746 | the first byte of a field says index, stored literal, never indexed or neither exactly as its mode, its sensitivity, its size and the tables ask |
| HpackForms.IndexRead | vendor/github.com/bogdanfinn/fhttp/http2/hpack/hpack.go:338-351 | the decoder takes an index exactly if it stands for an entry of either table, and refuses any other |
| HpackForms.SizeUpdateRead | vendor/github.com/bogdanfinn/fhttp/http2/hpack/hpack.go:399-417 | it takes a new table size exactly at the start of a block or on an empty table, up to what is allowed |
| HpackRoundTrip.FieldRoundTrip | scripts/patch-fhttp.py:709-755 | one field's bytes decode to the field, and the decoder's table becomes the encoder's, also when the add evicts the entry the name refers to |
| HpackRoundTrip.IndexedRoundTrip | vendor/github.com/bogdanfinn/fhttp/http2/hpack/hpack.go:338-351 | an indexed field reads back as the entry it stands for |
| HpackRoundTrip.BlockRoundTrip | scripts/patch-fhttp.py:709-787 | for every policy, rule, Huffman setting and sequence of fields the decoder reads exactly the fields and ends with the encoder's table |
| AsyncCalls.Registry.Register | lib/async.go:107-110 | the number stands for a fresh call, and no other changes |
| AsyncCalls.Registry.Interim | lib/async.go:67-73 | an interim frame is kept last, and only by a registered call neither done nor dropped |
| AsyncCalls.Registry.Finish | lib/async.go:118-124 | the call is done with its frame; a dropped one leaves the registry |
| AsyncCalls.Registry.TakeLocked | lib/async.go:274-285 | what a take's critical section returns and leaves, events before the answer |
| AsyncCalls.Registry.CancelLocked | lib/async.go:306-325 | a call in flight is marked dropped, a finished one unregistered and handed to discard |
| AsyncRuns.TakeKeeps | lib/async.go:272-285 | with its number announced, a registered call always has an event or the answer for a take |
| AsyncRuns.ReadKeeps | lib/async.go:287-294 | a take that reads done after the lock, with the call in hand, finds it set |
| AsyncRuns.SteppedKeeps | lib/async.go:64-124 | interim frames, ends, takes, their reads and cancellations keep a call's invariant |
| AsyncRuns.DiscardSteps | lib/stream.go:154-158 | a discard leaves no handle of its call open |
| AsyncDelivery.StepKeeps | lib/async.go:64-135 | every step of a disciplined run keeps the invariant of calls, queue and handles |
| AsyncDelivery.RunKeeps | lib/async.go:99-135 | so does every run |
| AsyncDelivery.EachTakeFindsAFrame | lib/async.go:272-296 | in every disciplined run no take of an uncancelled call is turned away, its frames come in the order kept with the answer last, and the unlocked read of done is true |
| AsyncDelivery.AllDeliveredAtRest | lib/async.go:64-135 | when nothing of an uncancelled call is under way, all interim frames and one answer have been handed back |
| AsyncDelivery.EachCallEndsOnce | lib/async.go:113-133 | a finished call is registered, being handed back, answered, owed a discard or discarded: one of these, once |
| AsyncDelivery.NoHandleLeaks | lib/rawconn.go:132-163 | every open stream, socket or connection opened asynchronously belongs to a call still working, delivered, or awaiting take or discard, and its discard would close it |
| AsyncHistory.FramesAreTheRuns | lib/async.go:113-124 | read off the steps of any run: the work of a call ends once at most, each answer handed back is the frame of that end, and the interim frames handed back or waiting are those that came before it and before any cancellation, in order; each take is accounted for |
| AsyncHistory.DisciplinedHandsBack | lib/async.go:272-296 | in every disciplined run a call's results are the first of the interim frames that came in flight, and after all of them perhaps the frame its work ended with |
| AsyncHistory.AllHandedBackAtRest | lib/async.go:64-135 | with no cancellation among the steps, the work ended and nothing under way, all of them and then that frame have been handed back |
| AsyncHistory.WaitsInOrder | lib/async.go:224-249 | waits return the numbers in the order they were pushed |
| AsyncHistory.CancelledInFlightIsDiscarded | lib/async.go:118-132 | a call cancelled while its work goes on is never announced nor answered, and is discarded once when the work ends |
| AsyncHistory.CancelledIsGone | lib/async.go:306-325 | after a cancellation a finished call is not registered, and was answered or discarded, or is about to be: one of these, once |
| AsyncHandles.OpenExactly | lib/rawconn.go:132-163 | a handle is open exactly from the step that opened it to the step that closed it or discarded its call |
| AsyncEarly.EarlyTakeAnswersTwice | lib/async.go:287-294 | a run of a caller that takes without waiting, in which one frame is answered twice |
| ReadyEvent.ReadyPipe.RaiseReady | lib/readyevent_unix.go:29 | one byte more, unless the pipe is full |
| ReadyEvent.ReadyPipe.LowerReady | lib/readyevent_unix.go:31-38 | with nobody writing, the loop of bounded reads empties the pipe |
| ReadyEvent.StepKeeps | lib/readyevent.go:23-60 | every step of producers, waits and the first use keeps the invariant, for a pipe and for an event |
| ReadyEvent.NoLostWakeup | lib/readyevent.go:36-60 | in every run, once the handle exists, a number in the queue means it is raised or a thread owes a raise |
| ReadyEvent.DebtsArePaid | lib/readyevent.go:46-60 | threads under way finish within a bound that counts them and the pipe's bytes; then a queue that is not empty has its handle raised |
| ReadyEvent.TakingAllLowers | lib/async.go:230-249 | a wait that finds nothing, undisturbed, leaves the handle lowered |
| ReadyEvent.EmptyWaitLowers | lib/async.go:230-249 | a wait that finds the queue empty while no other thread is under way lowers the handle |
| ReadyEvent.NotRaisedForNothing | lib/readyevent.go:23-60 | until a number is pushed the handle stays down |
| BlinkHasher.BlinkHashOf | internal/client/blinkmap.go:65-114 | the hash of the folded 16-bit units; every read is inside the name at every length |
| BlinkHasher.ReadBlocks | internal/client/blinkmap.go:84-95 | the loop takes as many whole blocks of 24 units as there are |
| BlinkHasher.Delta | internal/client/blinkmap.go:76 | the offset is 0 or 2 units by the length, as the masked shift computes it |
| BlinkHash.HashIgnoresCase | internal/client/blinkmap.go:48-54 | names equal up to case hash alike |
| BlinkKnown.AcceptHash | internal/client/blinkmap_test.go:21-30 | the hash of accept, in any spelling, is the one the test pins: a name of up to 8 units |
| BlinkKnown.UserAgentHash | internal/client/blinkmap_test.go:21-30 | and of user-agent: up to 16 units |
| BlinkKnown.PlatformHash | internal/client/blinkmap_test.go:21-30 | and of sec-ch-ua-platform: up to 24 units |
| BlinkKnown.FullVersionListHash | internal/client/blinkmap_test.go:21-30 | and of sec-ch-ua-full-version-list: more than a block |
| BlinkProbing.MaskIsRest | internal/client/blinkmap.go:124-131 | masking with a power of two less one is the remainder |
| BlinkProbing.ProbesDiffer | internal/client/blinkmap.go:124-131 | no two of the first size probes meet the same bucket |
| BlinkProbing.EveryBucketProbed | internal/client/blinkmap.go:124-131 | each bucket is met by one of the first size probes, whatever the hash |
| BlinkProbing.NextProbe | internal/client/blinkmap.go:130 | adding the step and masking gives the next probe's bucket |
| BlinkMap.PlaceHeld | internal/client/blinkmap.go:123-135 | placing a name the table holds, in any spelling, changes nothing |
| BlinkMap.PlaceNew | internal/client/blinkmap.go:123-135 | placing a new name fills one empty bucket and keeps every probe path whole |
| BlinkMap.RefillInv | internal/client/blinkmap.go:136-144 | a refill in bucket order loses no name, respells none and keeps every path whole |
| BlinkMap.FillGood | internal/client/blinkmap.go:145-158 | after any names the table is less than half full, its paths whole, holding each name in its first spelling |
| BlinkFirsts.LayoutIsFirsts | internal/client/blinkmap.go:119-166 | the layout holds exactly the first spellings of the nonempty names, no two alike |
| BlinkFirsts.EachNameOnce | internal/client/blinkmap.go:119-166 | every nonempty name is in the layout at one place |
| BlinkFirsts.LayoutIgnoresRepeats | internal/client/blinkmap.go:116-118 | the layout equals that of the names without repetitions |
| BlinkOrder.LayoutOrder | internal/client/blinkmap.go:119-166 | the layout reads, over strictly ascending buckets, exactly the nonempty ones of the table the names make: eight empty buckets at first, each new name in the first bucket of its probe path that is free then, and, when half are in use, the names moved in bucket order to twice as many |
| BlinkOrder.LayoutUnique | internal/client/blinkmap.go:119-166 | and any list so read off tables so made is the layout |
| BlinkKnown.UserAgentBeforeAccept | internal/client/blinkmap.go:159-165 | the layout of accept and user-agent, in any spelling, has user-agent first |
| BlinkLayout.Probe | internal/client/blinkmap.go:124-131 | the loop ends, at the name's bucket or at the empty one it gets |
| BlinkLayout.Place | internal/client/blinkmap.go:123-135 | the arrays become those of the placement, hashes beside their names |
| BlinkLayout.Rehash | internal/client/blinkmap.go:136-144 | the new arrays are the old table refilled |
| BlinkLayout.Insert | internal/client/blinkmap.go:149-157 | one name placed, counted, and the table doubled when half full |
| BlinkLayout.Layout | internal/client/blinkmap.go:119-166 | computes the layout of the names with Blink's hash, in the order LayoutOrder states |
| BlinkCache.KeyDecides | internal/client/blinkmap.go:189 | lists of NUL-free names with one cache key have one layout |
| BlinkCache.KeyNeedsNulFree | internal/client/blinkmap.go:189 | every list with a name that holds NUL shares its key with a NUL-free list of another layout |
| BlinkCache.LayoutCache.Cached | internal/client/blinkmap.go:188-198 | what is returned is the layout of the list first stored under the key, and of the names themselves if all lists are NUL-free; at most 4096 layouts are kept |
| CacheFreshness.LifetimeNeverLonger | internal/client/cache.go:130-184 | the computed lifetime is never longer than that of section 4.2.1 of RFC 9111, and equal exactly up to what 64 bits hold, of which the heuristic takes a tenth |
| CacheFreshness.AgeExact | internal/client/cache.go:198-215 | the computed age is that of section 4.2.3 of RFC 9111 exactly up to 64 bits |
| CacheFreshness.FreshMeansFresh | internal/client/cache.go:217-219 | what the code calls fresh is fresh by RFC 9111, while its age fits |
| CacheFreshness.FreshIsUsed | internal/client/cache.go:217-219 | what is fresh by RFC 9111 is called fresh, unless its lifetime is longer than the code can compute |
| CacheFreshness.AgeMayWrap | internal/client/cache.go:203-208 | an Age field for which a stale response is called fresh |
| CacheVary.SameVaryExact | internal/client/cache.go:606-616 | the comparison of stored values is equality exactly when none of them is empty |
| CacheVary.MatchesExact | internal/client/cache.go:582-604 | a stored response is used for exactly the requests that agree on what it varies on, if and only if its own request carried no empty value there or left no name out |
| CacheVary.RevalidatedExact | internal/client/cache.go:744-764 | after a 304 the values kept pick the right requests exactly when they are what its Vary would have given, or nothing and it lists nothing |
| CacheStore.MemStore.Get | internal/client/cache.go:308-317 | the entry of the key, which becomes the one used last; a miss changes nothing |
| CacheStore.MemStore.Put | internal/client/cache.go:319-335 | what remains is the longest recent part that fits the maximum, the new entry always; bytes and map agree with the list |
| CacheStore.MemStore.Remove | internal/client/cache.go:337-345 | the key's entry goes, and its bytes, and no other |
| CacheStore.MemStore.Clear | internal/client/cache.go:347-352 | an empty store |
| CacheStore.MemStore.Stats | internal/client/cache.go:354-358 | the number of entries and the sum of their sizes |
| CacheStore.FittingUnique | internal/client/cache.go:328-334 | there is one such longest part |
| CacheTee.TeeBody.Read | internal/client/cache.go:664-684 | one read: what is passed on, kept and stored |
| CacheTee.StoredExactly | internal/client/cache.go:664-684 | a body is stored exactly when its first end is a proper one and it is within the limit, and then whole, whatever is read after |
| CacheTee.NothingStoredYet | internal/client/cache.go:664-684 | nothing is stored before an end |
| CacheRuns.FreshEntryIsCurrent | internal/client/cache.go:707-722 | a usable entry the code finds fresh has the body the origin would send now |
| CacheRuns.UsableValues | internal/client/cache.go:707-710 | the values kept with a usable entry are those of the request that may use it |
| CacheRuns.RevalidatedIsCurrent | internal/client/cache.go:741-767 | after a 304 the stored body is the current one, and the entry with the merged fields is honest for the request that got it |
| CacheTransparency.StepKeeps | internal/client/cache.go:689-784 | every lookup, answer, ended body and loss keeps the invariant of store, requests under way and bodies being read |
| CacheTransparency.CacheIsTransparent | internal/client/cache.go:689-784 | in every run against an honest origin, where each request whose response is stored told what it varies on, each body handed to a default or reloading request is the one a client without a cache would have got at that moment |
| CacheAnswers.DefaultAnswers | internal/client/cache.go:707-722 | in every run a default request with a usable response that is fresh by RFC 9111, of a lifetime the code can compute, adds one output with its body and is not sent; with a stale one it is sent with what was found and adds none |
| CacheAnswers.ModesAnswer | internal/client/cache.go:712-722 | force-cache and only-if-cached are answered with a usable response of any age, a reload is always sent, and without one a request is sent bare, but for only-if-cached |
| CacheAnswers.OnlyIfCachedIsNeverSent | internal/client/cache.go:716-719 | in no run is an only-if-cached request sent |
| CacheAnswers.ConfirmedIsKept | internal/client/cache.go:741-767 | after a 304 the stored body is handed back, and the entry has the fields of the 304 in place of its own, but for those about the body, and the times of that exchange |
| CacheAnswers.AnswerIsKept | internal/client/cache.go:769-784 | any other answer is handed back, and set aside for storing exactly if it may be stored and the request does not forbid it; a no-store response removes the entry that was found |
| CacheAnswers.StoredIsUsed | internal/client/cache.go:689-784 | a response read to its end answers the next default request that agrees on what it varies on, as long as it is fresh |
| CacheExchanges.OnlyAllowedIsStored | internal/client/cache.go:227-245 | in every run each stored body, and each being read to be stored, came with a response that may be stored, for a request without no-store, under its key and with its values |
| CachePut.PutRefines | internal/client/cache.go:319-335 | the memory store after a put is the run's store after the put and some loss, the new entry kept |
| FlowControl.Flow.Add | vendor/github.com/bogdanfinn/fhttp/http2/flow.go:45-52 | adds exactly when the sum fits in 32 bits, and says so |
| FlowControl.TakeFrame | vendor/github.com/bogdanfinn/fhttp/http2/transport.go:2700-2734 | a frame is taken from both windows exactly when both allow it; padding goes back to both, and all of a reset stream's frame to the connection |
| FlowControl.RefreshWindows | vendor/github.com/bogdanfinn/fhttp/http2/transport.go:2540-2592 | the end of a read adds to both windows what the specification of a refresh says, and announces what it added |
| FlowStreams.RefreshKeeps | scripts/patch-fhttp.py:75-137 | a refresh credits all that is due, the overflow guard never refusing it |
| FlowStreams.RefreshExact | vendor/github.com/bogdanfinn/fhttp/http2/transport.go:2553-2592 | after a refresh that credits, credit is the bytes read and those between window and pipe or thrown away; it stays within the bytes read exactly when there are none of those |
| FlowStreams.StreamSteps | vendor/github.com/bogdanfinn/fhttp/http2/transport.go:2508-2741 | every step keeps each stream's conservation and the peer's count equal to the window of a known stream |
| FlowStreams.StreamsConserve | scripts/patch-fhttp.py:25-139 | in every run window, bytes taken and not read, discarded and uncredited bytes add up to the configured window, which is never passed; the peer counts the same window |
| FlowStreams.CreditExact | scripts/patch-fhttp.py:75-90 | all through a run credit stays within the bytes read exactly when no refresh that credits met a frame on its way to the pipe or one thrown away |
| FlowStreams.CreditMayRunAhead | vendor/github.com/bogdanfinn/fhttp/http2/transport.go:2700-2741 | a run in which a frame between window and pipe is credited before it is read |
| FlowStreams.DrainedStreamIsOpen | scripts/patch-fhttp.py:75-137 | after a read without error that leaves nothing in the pipe the window is open, for windows above the threshold |
| FlowStreams.SmallStreamsStall | vendor/github.com/bogdanfinn/fhttp/http2/transport.go:2567-2592 | with a window at or below the threshold no stream is ever credited |
| FlowStreams.SmallStreamStalls | vendor/github.com/bogdanfinn/fhttp/http2/transport.go:2567-2592 | for each such window, a run whose stream has its whole window read and shut |
| FlowCredit.StreamCredit | vendor/github.com/bogdanfinn/fhttp/http2/transport.go:2553-2592 | in every run a stream is credited only by a read without error, exactly when more has gone than 16384 bytes, or than half a window of a megabyte or more; then its window is filled up |
| FlowCredit.ConsumedIsRead | vendor/github.com/bogdanfinn/fhttp/http2/transport.go:2513-2515 | the bytes its conservation counts as read are those its reads returned |
| FlowConnection.FirstWindowExact | vendor/github.com/bogdanfinn/fhttp/http2/transport.go:898-915 | the first connection window is what the peer was told exactly when the sum fits in 32 bits, and negative otherwise |
| FlowConnection.ConnSteps | vendor/github.com/bogdanfinn/fhttp/http2/transport.go:2616-2735 | every step keeps the connection's window equal to the peer's and the orphaned bytes |
| FlowMirror.MirrorExact | vendor/github.com/bogdanfinn/fhttp/http2/transport.go:2616-2670 | all through a run the connection's window is the peer's and the orphaned bytes exactly when the first window fits and every addition nobody checks finds room |
| FlowMirror.PeerNeverRefused | scripts/patch-fhttp.py:54-73 | while the unchecked additions fit, each frame of a peer that keeps to its own counts is within both windows, and neither passes 2^31-1 |
| FlowMirror.GuardNeverFires | vendor/github.com/bogdanfinn/fhttp/http2/transport.go:2546-2551 | and the guard of a read's refresh of the connection never refuses |
| FlowCredit.PeerWindowIs | vendor/github.com/bogdanfinn/fhttp/http2/transport.go:2544-2741 | while the unchecked additions fit, what the peer may send is what it was told at first, less its frames but for padding and for those of reset or forgotten streams, and what closes returned and reads gave back, each filling a window less than half full |
| FlowMirror.RoomFits | vendor/github.com/bogdanfinn/fhttp/http2/transport.go:2616-2670 | they fit where there is room for all that closes return and forgotten streams are sent |
| FlowRefusal.PeerWindowOverflows | vendor/github.com/bogdanfinn/fhttp/http2/transport.go:2615-2637 | closing one body over and over takes the peer's window past 2^31-1 |
| FlowRefusal.SomePeerIsRefused | vendor/github.com/bogdanfinn/fhttp/http2/transport.go:2700-2710 | for every configuration some run refuses a peer that keeps to its counts |
| FlowConnection.RoomWithoutCloses | vendor/github.com/bogdanfinn/fhttp/http2/transport.go:898-915 | a run in which no close returns bytes and no stream is cancelled has room exactly when the first window had |
| FlowMirror.ReadReopens | vendor/github.com/bogdanfinn/fhttp/http2/transport.go:2544-2551 | a read leaves the peer's window shut exactly when it was shut and half of connFlow was orphaned |
| FlowStarvation.StarvedStays | vendor/github.com/bogdanfinn/fhttp/http2/transport.go:2544-2551 | once starved, no run lets the peer send again |
| FlowStarvation.OrphansStarve | vendor/github.com/bogdanfinn/fhttp/http2/transport.go:2658-2675 | some run with k orphaned bytes starves exactly when k is at least half of connFlow, for every k there is room for |
| HeaderMerge.OrderIsTopological | scripts/gen-resources.py:99-114 | an order that keeps every sequence respects every edge |
| HeaderMerge.TopologicalIsOrder | scripts/gen-resources.py:99-114 | and one that respects every edge keeps every sequence |
| HeaderMerge.SeeFirst | scripts/gen-resources.py:102-105 | the names in the order of their first appearance |
| HeaderMerge.FirstSeenOrder | scripts/gen-resources.py:102-105 | a name of lower rank appears before the first place of the other |
| HeaderMerge.FindEdges | scripts/gen-resources.py:106-113 | each pair of a sequence is an edge, and each name's count is of the names before it |
| HeaderMerge.CountDown | scripts/gen-resources.py:119-122 | the names after the one placed are counted down, and those with none missing are ready, in any order of the set |
| HeaderMerge.Arrange | scripts/gen-resources.py:114-124 | the least order by rank that respects the edges, or none because there is none |
| HeaderMerge.GreedyIsLeast | scripts/gen-resources.py:117-123 | choosing the earliest name each time is before every other order |
| HeaderMerge.StuckMeansNone | scripts/gen-resources.py:124 | stuck before the end, no order exists |
| HeaderMerge.StuckHasCycle | scripts/gen-resources.py:124 | and the pairs of the sequences form a cycle |
| HeaderMerge.Merge | scripts/gen-resources.py:99-124 | an order exactly when one keeps every sequence, which is exactly when their pairs form no cycle; it has each name once and is the least such by first appearance |
| AltSvc.PeriodIsDoubled | internal/client/altsvc.go:163-166 | the wrapping shift gives five minutes doubled per failure up to a day, for every number of failures |
| AltSvc.PeriodGrows | internal/client/altsvc.go:23-26 | the period starts at five minutes, never shrinks and never passes a day |
| AltSvc.Session.NoteAltSvc | internal/client/altsvc.go:49-86 | an advertisement sets its expiry and keeps the failures; clear forgets the address |
| AltSvc.Session.MarkAltSvcBroken | internal/client/altsvc.go:155-170 | one failure more, and broken for its period |
| AltSvc.Session.AltSvcH3 | internal/client/altsvc.go:130-143 | HTTP/3 for an advertisement neither expired nor broken, in a session that has both switches on |
| AltSvc.BrokenForDoubledPeriod | internal/client/altsvc.go:130-170 | in every run an address is broken exactly for the doubled period after the last failure since it was withdrawn, and HTTP/3 is tried exactly after that and until the last advertisement since then ends |
| CryptoAssembly.NeedExact | cmd/quiccapture/main.go:557 | the computed size is the message's exactly when bit 2 of its low length byte is clear, else four less |
| CryptoAssembly.Lay | cmd/quiccapture/main.go:543-552 | one fragment placed: its bytes, its marks, the rest as it was |
| CryptoAssembly.Assemble | cmd/quiccapture/main.go:539-567 | of any fragments, the bytes the first four ask for when all are covered, the last fragment over a byte deciding it |
| CryptoAssembly.AssembledIsAnswer | cmd/quiccapture/main.go:539-567 | of the fragments of a message, what it needs of the message |
| CryptoAssembly.OnlyCoverMatters | cmd/quiccapture/main.go:536-538 | the answer depends only on which bytes are covered, not on order, overlap or repetition |
| CryptoAssembly.AnswerStays | cmd/quiccapture/main.go:554-567 | the answer is a prefix of the message and more fragments do not change it |
| CryptoAssembly.WholeExact | cmd/quiccapture/main.go:554-567 | a whole message comes back exactly when that bit is clear, and is cut short by four bytes otherwise |
| ProfileNames.DepthsDiffer | cmd/import/main.go:231-258 | a name given at a shallow depth is no other file's at a deeper one, if it was not at the shallow one |
| ProfileNames.UniqueMeans | cmd/import/main.go:276-282 | a name is counted once exactly when no other file still left has it |
| ProfileNames.Pass | cmd/import/main.go:275-287 | a pass names each file without a rival at its depth and leaves the others |
| ProfileNames.AssignNames | cmd/import/main.go:263-297 | each file gets the name of the first depth at which no file still left shares it, or its base name |
| ProfileNames.OutcomesDiffer | cmd/import/main.go:260-263 | no two of those names are alike, if no browser has a hyphen and no system one behind a dot |
| ProfileNames.OutcomeShortest | cmd/import/main.go:225-230 | each shorter name is another file's too, and the base name is taken only where all are |
| ProfileCollisions.HyphenCollides | cmd/import/main.go:231-258 | a browser name with a hyphen, and no dot behind it, is enough for two files to get one name |
| ProfileCollisions.DotAndHyphenCollide | cmd/import/main.go:231-258 | and so is a system with one dot before a hyphen |
| EchWire.ReadsExts | cmd/echstand/main.go:496-502 | written extensions are read back wherever they stand |
| EchWire.ParsesLaid | cmd/echstand/main.go:484-505 | a hello parses to its parts, whatever follows it |
| EchExpand.CopiedIsWritten | scripts/patch-utls.py:275-286 | the client copies the outer extensions the server writes |
| EchExpand.ExtsAgree | scripts/patch-utls.py:262-288 | both find the same extensions, compressed ones in place |
| EchExpand.ClientReads | scripts/patch-utls.py:247-261 | the client's reading of an encoded hello, padded or not |
| EchExpand.ServerReads | cmd/echstand/main.go:510-543 | the server's expansion of an encoded hello, padded or not |
| EchExpand.ExpansionsAgree | scripts/patch-utls.py:231-291 | the client's expansion is a handshake header and the server's, and fails only for extensions too long for their length |
| EchServer.ReadLoop | cmd/echstand/main.go:496-502 | the loop's map holds the last extension of each type, its list their order |
| EchServer.CopyNamed | cmd/echstand/main.go:520-528 | the loop over the named types, by position |
| EchServer.ExpandLoop | cmd/echstand/main.go:516-533 | the loop writes the expanded extensions |
| EchInner.Sort | scripts/patch-utls.py:347-389 | which extensions the inner hello has itself and which it names, for both styles |
| EchInner.CompressedInOrder | scripts/patch-utls.py:346-399 | the names are a subsequence of the outer hello's types, never the ECH extension, and all that may be named |
| EchInner.InnerFillable | scripts/patch-utls.py:318-437 | whatever either style names the outer hello can fill in, and each type is there once |
| EchOffer.GreaseMeans | scripts/patch-utls.py:321-341 | a value is taken for GREASE exactly if it is one of the sixteen of section 2 of RFC 8701 |
| EchOffer.SuitesInOrder | scripts/patch-utls.py:338-341 | the suites are those at ascending places of the outer list: for NSS all, for BoringSSL exactly the GREASE ones and 0x1300 to 0x13ff |
| EchOffer.SuitesOnWire | scripts/patch-utls.py:337-342 | and so they stand in the hello |
| EchOffer.OwnVersions | scripts/patch-utls.py:363-380 | an own supported_versions lists TLS 1.3 alone, behind the first GREASE value of the outer list in BoringSSL's |
| EchContent.ServerSees | scripts/patch-utls.py:318-437 | the expanded hello is the outer session ID, those suites and the content below, and a parser finds just that |
| EchContent.ContentTypes | scripts/patch-utls.py:346-399 | which types the expanded hello has: of the outer hello's all but those of TLS 1.2 and its own, server_name exactly with a name, the PSK exactly if there is one |
| EchContent.ContentHolds | scripts/patch-utls.py:346-399 | what they hold: the name inside, the marker of an inner hello, the versions, the PSK, and of any other the outer hello's own data |
| EchContent.ContentOnce | scripts/patch-utls.py:293-299 | no type is there twice |
| EchContent.OwnInOrder | scripts/patch-utls.py:346-380 | its own extensions come in the order in which the outer has theirs |
| EchContent.OffersTls13 | scripts/patch-utls.py:363-380 | where the outer hello offers TLS 1.3 the expanded one does, and no older version |
| EchInner.StylesAgree | scripts/patch-utls.py:299-437 | for outer hellos with distinct types, either style's encoding expands to the same hello at the client and at the server that parsed the outer one; it fails exactly for extensions too long for their length |
| EchPadding.PadLength | scripts/patch-utls.py:442-453 | the pad of the name, then to a multiple of 32 |
| EchPadding.LengthHidesName | scripts/patch-utls.py:318-453 | padded encodings are a multiple of 32 and equally long for every name up to the maximum, none included |
| EchPadding.PadsToNext | scripts/patch-utls.py:442-453 | the padded length is the next multiple of 32 after the length with a name of the maximum length, or with its own if that is longer |
| EchBinder.EncodedEnds | scripts/patch-utls.py:400-419 | the encoding ends in the binder, and nothing before it depends on its bytes |
| EchBinder.FullEnds | scripts/patch-utls.py:427-433 | so does the expanded hello |
| EchBinder.CopyBinder | scripts/patch-utls.py:434 | the binder's place and nothing else is overwritten |
| EchBinder.BinderCoversItself | scripts/patch-utls.py:424-435 | the final bytes expand to a message whose transcript before the binders is the one the binder was computed over, and that ends in that binder |

## Left out

HPACK
- HpackRoundTrip.BlockRoundTrip: the Huffman code is a parameter with the law that decoding undoes encoding, and the static table is a parameter too; the tables themselves are data.
- Dynamic table size updates: the decoder's parsing of them is modelled, but the encoder's writing is not, because the client never changes its table's size.
- The decoder's limit on string lengths, its switch for emitting fields and its incremental reads: a block is decoded whole.
- HpackEncoder.Encoder.WriteField: errors of the underlying writer; a byte's flag bits are joined by addition where they cannot overlap.

Asynchronous calls and ready event
- AsyncDelivery.NoHandleLeaks: no panic between a handle's registration and its storing; the error fields of opened streams and connections.
- cgo memory, JSON frames, contexts and their cancellation: frames are strings, and a cancelled context is only a frame like any other.
- ReadyEvent.DebtsArePaid: scheduling is any order of steps; that a thread is run at all is the scheduler's.
- A read of the pipe interrupted by a signal.

Blink map
- Names that are not ASCII; the 32-bit width of the probe's counter and of sizes, which no request's headers reach; the caches' use by several threads at once.
- BlinkHasher.BlinkHashOf: twice a name's length is taken to fit in 64 bits.
- Which profiles use the map.

Cache
- Splitting header text into directives, dates and names, and duplicated fields: a header is a map of values, and how values are read is a parameter. A `*` inside a longer Vary list is the origin's to avoid.
- The disk store's files: for runs it is a store that may lose any entries at any time; its use order is not modelled.
- CacheTransparency.CacheIsTransparent: the bodies of the modes that ask for a stored response whatever its age; the empty 504 of an only-if-cached request without one, which is no output here; requests that go past the cache; the entry size as a formula (a parameter of the store). What the origin must do is spelled out by `CacheRuns.Honest`.

Receive windows
- Frames that are errors of the protocol (DATA before HEADERS, a body for HEAD, more than Content-Length): the stream ends with an error, and its bytes are not counted here.
- FlowStarvation.OrphansStarve: orphaned bytes that, added to the first window, do not fit in 32 bits.
- A frame for an odd number never opened, or written to a pipe that already has an error, ends the connection: runs end there.
- Two reads of one body at once, which its interface does not allow; send windows.

ECH
- HPKE, AEAD and the outer extension that carries the payload; uTLS's own third style of inner hello; moving the PSK out of the outer extensions.
- EchExpand.ExpansionsAgree: a hello that stops before its lengths say, on which the stand would panic, or extensions too long for their 16-bit length, which the stand would truncate.
- EchBinder.BinderCoversItself: the hash is any function with an output of the binder's length.

The rest
- AltSvc.BrokenForDoubledPeriod: reading the Alt-Svc text; the lifetime of an advertisement is what the text said.
- ProfileNames.AssignNames: the normalising of a system's name, which is taken as given; reading and writing the files.
- ProfileNames.OutcomesDiffer: one way only, as some files with such hyphens still get different names.
- HeaderMerge.Merge: which sequences are merged and which kinds get an order of their own.
- CryptoAssembly.Assemble: QUIC packets and their decryption.
- Sockets, TLS and QUIC handshakes, DNS, browsers, bindings, profile data and packaging: effects and data with nothing to prove here.
