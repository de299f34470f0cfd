# tinydnssec-x in Dafny

A model of the core of tinydnssec-x: the bundled crypto library, the DNS cache, the resolver and the message code of dq, the DNSCurve TXT format shared by dq and curvedns, the shared-secret table of curvedns, and the retry machine of dnscache. Code that updates buffers, structures and tables in place is modelled by methods and classes that do; each is proved against a specification on values, and the specifications are what the main results are about.

| files | what they model |
|---|---|
| `Bits`, `Bytes`, `Modular`, `Wrappers` | machine words as numbers with explicit wrap-around, byte strings, congruences, options |
| `Poly1305`, `Limbs`, `Fe`, `Fe25519`, `X25519` | 26-bit and 32-bit limb arithmetic against the integers of RFC 8439 and RFC 7748 |
| `Secretbox` | stream, tag comparison and secret box, with the 64-byte core function as a parameter |
| `CacheList`, `CacheRep`, `Cache`, `CacheHistory`, `CacheFile` | the cache in one circular buffer with xor-linked buckets, against a queue of entries and against all that was ever set; dump and load |
| `Names`, `Dots`, `Packet`, `Compress`, `NameTable`, `Message`, `Response` | names, their text, decompression, compression and message building |
| `RecordOrder`, `RecordSort`, `PacketScan`, `RecordData` | the records of a packet: order, sets, meaning, and their data in the packet and in the cache |
| `Provenance`, `Reply`, `Zones`, `Digest`, `Resolver` | which packet a piece of data comes from, replies, which servers a zone has, what a packet adds to the cache, and the resolver as a state machine |
| `Server` | many queries under way at a time on one cache |
| `Base32`, `CurveName`, `CurveQuery`, `CurveReply` | the DNSCurve TXT query and reply, client and server |
| `SecretTable` | the hash table with its used and unused lists |
| `Nonce`, `Transmit` | nonces that do not repeat; retries over UDP and TCP |

The main results:

- The limb code of Poly1305 and Curve25519 computes exactly what the RFCs define, for every input, with every overflow bound proved.
- The cache buffer represents a queue of entries after every operation; lookups, insertion, eviction, dump and load are operations on that queue. No 32-bit position wraps, and none of the five tests for the impossible ever succeeds.
- Every name the message builder writes is read back by the packet parser, and every finished message parses as its header, question and counted records.
- Whatever packets and failures occur, a resolver query ends after at most 2500 calls of `doit`, asks servers only about names in their zone, and follows only referrals that get strictly closer to the name. Every packet came from a server of its zone: one configured for the zone, or one whose address earlier packets told for a name reached, over told aliases, from a told name server of the zone. Every alias and every record of a reply, data included, was told by such a packet about an owner in its zone, now or when it was put into the cache; what the cache returns reads as the data the packet had. All this holds of every query of a server with many queries under way, in every order of their packets.
- Over every run the queue of the cache is exactly the newest of the entries the resolver ever set; an entry is missing only if it and those after it exceed the room less one largest entry. What was set last is found by the next lookup.
- The zone a name is asked in is, while the clock stands still, exactly the longest tail of the name with servers configured or cached; for a moving clock each lookup counts at its own reading.
- A reply made from a packet holds exactly the matching records, in order, with type, lifetime and data, all of which could be read.
- The heapsort of the resolver sorts by a strict total order, and the loop after it takes every record set exactly once, whole, and puts each set that is to be stored into the cache, with the data of all its records.
- The server recovers exactly what the client put into a DNSCurve TXT query, and the client what the server put into the reply, with the in-place coding on both sides.
- The shared-secret table never changes the secret a packet gets; nonces never repeat; retries are bounded and own their resources.

Some properties are false in part, and are stated with their exact condition. A key is recovered from the TXT query if and only if its top bit is zero (`Base32.KeyRoundTrip`). A full shared-secret table has a used list after `cache_set` if and only if it has at least two entries (`SecretTable.Table.Set`, with the failing run in `SecretTable.SingleEntryBreaks`; curvedns always makes at least five). Processes with unrelated start strings never share a nonce if neither read zero from the clock at the start (`Nonce.Separate`), and may if one did (`Nonce.ZeroClockCollides`). Loading the cache from a file ends if and only if no position in the file comes round again (`CacheFile.LoadEnds`), as in every dump, and not in a certain file of sixteen bytes (`CacheFile.NeverEnds`). A field element is written canonically if and only if its limbs hold a number below 2p (`X25519.ToBytes`).

Outside events are nondeterministic: allocation, sockets and the packets. What stands in memory behind the cache buffer is a parameter. The clock of the resolver is a function from the number of a reading to a time, and may do anything. The configured servers and the names that spell addresses are functions given as parameters. The hash of the cache (`siphash`), `salsa_core` and the box key computation are functions given as parameters.

## Model

| member | source | states |
|---|---|---|
| Poly1305.Onetimeauth | tinydnssec-x/dq-20161210/crypto/crypto_onetimeauth_poly1305.c:34-151 | For every message and key the sixteen bytes written are the tag of section 2.5 of RFC 8439 over the integers; the key may overlap the output, and nothing else of the output buffer changes. |
| Poly1305.Absorb | tinydnssec-x/dq-20161210/crypto/crypto_onetimeauth_poly1305.c:57-101 | The message loop, short last block and wrapping length included, leaves limbs that stand for the RFC's accumulator modulo 2^130-5. |
| Poly1305.LoadRValue | tinydnssec-x/dq-20161210/crypto/crypto_onetimeauth_poly1305.c:46-50 | The five masked loads of r are the clamping of the RFC. |
| Poly1305.LoadBlockValue | tinydnssec-x/dq-20161210/crypto/crypto_onetimeauth_poly1305.c:62-81 | Cutting a block into 26-bit limbs loses nothing. |
| Poly1305.RowBounds | tinydnssec-x/dq-20161210/crypto/crypto_onetimeauth_poly1305.c:83-95 | For carried limbs no row product leaves 64 bits and no carry leaves 32 bits. |
| Poly1305.RowsFold | tinydnssec-x/dq-20161210/crypto/crypto_onetimeauth_poly1305.c:83-88 | The five rows differ from the full product of the numbers by a multiple of 2^130-5. |
| Poly1305.CarryRowsValue | tinydnssec-x/dq-20161210/crypto/crypto_onetimeauth_poly1305.c:90-97 | The carry chain keeps the value modulo 2^130-5 and leaves limbs the next block can be added to. |
| Poly1305.BlockStepValue | tinydnssec-x/dq-20161210/crypto/crypto_onetimeauth_poly1305.c:60-97 | One block adds and multiplies modulo 2^130-5 and keeps the bounds. |
| Poly1305.FullCarryValue | tinydnssec-x/dq-20161210/crypto/crypto_onetimeauth_poly1305.c:104-110 | After the full carry every limb, limb 1 included, is below 2^26 and the value is unchanged modulo 2^130-5. |
| Poly1305.SelectValue | tinydnssec-x/dq-20161210/crypto/crypto_onetimeauth_poly1305.c:112-131 | The masked select gives the one representative below 2^130-5. |
| Poly1305.PackValue | tinydnssec-x/dq-20161210/crypto/crypto_onetimeauth_poly1305.c:133-137 | The words joined by or are exactly the value modulo 2^128. |
| Poly1305.AddPadValue | tinydnssec-x/dq-20161210/crypto/crypto_onetimeauth_poly1305.c:139-143 | The final addition is addition modulo 2^128 across the four words. |
| Poly1305.FinishValue | tinydnssec-x/dq-20161210/crypto/crypto_onetimeauth_poly1305.c:104-148 | Everything after the loop computes (value mod 2^130-5 plus s) mod 2^128. |
| Fe.Mul | tinydnssec-x/dq-20161210/crypto/fe.c:71-104 | The sixteen output limbs hold the product of the two numbers; no 64-bit sum of partial words overflows. |
| Fe.Sq | tinydnssec-x/dq-20161210/crypto/fe.c:111-150 | The sixteen output limbs hold the square, cross products doubled. |
| Fe.Cswap | tinydnssec-x/dq-20161210/crypto/fe.c:39-50 | The numbers are exchanged if the bit is one and unchanged if it is zero. |
| Fe.ReduceSmall | tinydnssec-x/dq-20161210/crypto/fe.c:155-171 | The modulus is subtracted once exactly if that does not go below zero (the comment speaks of p < r, the code also subtracts for r equal to p). |
| Fe25519.ReduceBig | tinydnssec-x/dq-20161210/crypto/fe25519.c:27-36 | Sixteen limbs are reduced to eight below 2p, congruent modulo 2^255-19, with no final carry lost, whenever no limb, 38 times its upper partner and a 32-bit carry exceed 64 bits. |
| Fe25519.MulTo | tinydnssec-x/dq-20161210/crypto/fe25519.c:41-49 | For all 256-bit inputs, aliased or not, the result is below 2p and is the product in the field. |
| Fe25519.SqTo | tinydnssec-x/dq-20161210/crypto/fe25519.c:54-62 | The same for the square. |
| Fe25519.Mul121666 | tinydnssec-x/dq-20161210/crypto/fe25519.c:67-75 | The same for the product with 121666. |
| Fe25519.AddTo | tinydnssec-x/dq-20161210/crypto/fe25519.c:81-89 | The same for the sum. |
| Fe25519.SubTo | tinydnssec-x/dq-20161210/crypto/fe25519.c:95-103 | The same for the difference: adding 3p limb by limb never lets a limb go below zero. |
| X25519.Inv | tinydnssec-x/dq-20161210/crypto/fe25519.c:122-151 | The addition chain raises to the power 2^255-21. |
| X25519.ToBytes | tinydnssec-x/dq-20161210/crypto/fe25519.c:187-196 | p is subtracted at most once from any 256-bit number; the bytes are those of the unique representative in [0, p) if and only if the number is below 2p, as every operation leaves it. |
| X25519.FromBytes | tinydnssec-x/dq-20161210/crypto/fe25519.c:201-207 | The limbs hold the number of the bytes without its top bit. |
| X25519.Scalarmult | tinydnssec-x/dq-20161210/crypto/crypto_scalarmult_curve25519.c:5-60 | For every scalar and point the 32 bytes are those of X25519 in section 5 of RFC 7748 over the integers modulo p. |
| X25519.StepInPlace | tinydnssec-x/dq-20161210/crypto/crypto_scalarmult_curve25519.c:32-49 | One step with its aliased arrays is the doubling and differential addition of the RFC. |
| X25519.Iterate | tinydnssec-x/dq-20161210/crypto/crypto_scalarmult_curve25519.c:25-49 | One iteration with its delayed swap is one bit of the ladder. |
| X25519.LadderStep | tinydnssec-x/dq-20161210/crypto/crypto_scalarmult_curve25519.c:23-30 | Swapping by the difference of neighbouring bits equals swapping before and after each step. |
| Secretbox.StreamXor | tinydnssec-x/dq-20161210/crypto/salsa.c:64-98 | Byte i of the output is byte i of the message xored with byte i mod 64 of block i/64 of the stream, for every length and also in place. |
| Secretbox.Count | tinydnssec-x/dq-20161210/crypto/salsa.c:81-86 | The two counter words count up modulo 2^64. |
| Secretbox.Verify | tinydnssec-x/dq-20161210/crypto/verify.c:3-10 | 0 if the strings are equal, -1 if they differ anywhere. |
| Secretbox.Seal | tinydnssec-x/dq-20161210/crypto/crypto_secretbox_xsalsa20poly1305.c:6-14 | The box is sixteen zeros, the tag keyed by the first 32 bytes, and the masked text; also in place; too short a message is refused and nothing written. |
| Secretbox.Open | tinydnssec-x/dq-20161210/crypto/crypto_secretbox_xsalsa20poly1305.c:16-27 | 0 exactly if the tag is the one recomputed, and then the output is 32 zeros and the unmasked text; otherwise nothing is written; also in place. |
| Secretbox.OpenSealed | tinydnssec-x/dq-20161210/crypto/crypto_secretbox_xsalsa20poly1305.c:6-27 | Every message with 32 leading zeros is sealed to a box whose tag is right and which opens to the message. |
| Cache.Cache.constructor | tinydnssec-x/dq-20161210/dq/cache.c:210-235 | The sizes are clipped to 100..3000000000 and the buffer represents the empty queue. |
| Cache.ChooseTable | tinydnssec-x/dq-20161210/dq/cache.c:221-224 | The table of head links is the power of two the comment asks for. |
| Cache.Cache.Set | tinydnssec-x/dq-20161210/dq/cache.c:158-208 | Over any call the layout invariant holds, and the queue is the old one less some oldest entries, with the new entry last; arguments out of range change nothing, an entry too big for the buffer empties it, and entries leave only under memory pressure. Positions are 32-bit words; no sum of them wraps. |
| Cache.Cache.Get | tinydnssec-x/dq-20161210/dq/cache.c:106-156 | The result is that of the newest entry with the key in the queue: its data, flags and lifetime left; a miss means there is none, it expired, or more than a hundred newer entries share its bucket. |
| Cache.Cache.Evict | tinydnssec-x/dq-20161210/dq/cache.c:181-189 | One round of eviction removes exactly the oldest entry. |
| Cache.Cache.Advance | tinydnssec-x/dq-20161210/dq/cache.c:184-189 | The 32-bit sum of line 184 is exact and leads to the end of the oldest entry, so the test of line 185 never leads to `cache_impossible`. |
| Cache.SumExact | tinydnssec-x/dq-20161210/dq/cache.c:173-173 | The 32-bit sum of the writer and the length of a new entry does not wrap. |
| Cache.Cache.KeyIs | tinydnssec-x/dq-20161210/dq/cache.c:129-131 | The stored key is compared; the test of line 130 never leads to `cache_impossible`. |
| Cache.Cache.ReadHit | tinydnssec-x/dq-20161210/dq/cache.c:132-145 | The flags, the lifetime left and the data of the entry; the test of line 141 never leads to `cache_impossible`. |
| Cache.Cache.MakeRoom | tinydnssec-x/dq-20161210/dq/cache.c:173-190 | The loop ends with room for the entry, or with an empty queue if it can never fit; it removes entries from the old end only. The 32-bit sums of lines 173 and 184 are exact. |
| Cache.Cache.Insert | tinydnssec-x/dq-20161210/dq/cache.c:194-205 | The free space is overwritten by the new entry, which becomes the newest of its bucket. |
| Cache.Cache.Set4 | tinydnssec-x/dq-20161210/dq/cache.c:62-69 | A write inside the buffer; the program never reaches `cache_impossible`. |
| Cache.Cache.Get4 | tinydnssec-x/dq-20161210/dq/cache.c:71-78 | A read inside the buffer; the program never reaches `cache_impossible`. |
| CacheRep.EvictRep | tinydnssec-x/dq-20161210/dq/cache.c:33-57 | Unlinking the oldest entry, always the last of its bucket, leaves the documented layout and xor links of the queue without it. |
| CacheRep.WrapRep | tinydnssec-x/dq-20161210/dq/cache.c:173-180 | Starting over at the front of the buffer keeps the layout. |
| CacheRep.InsertRep | tinydnssec-x/dq-20161210/dq/cache.c:194-205 | Writing and linking an entry yields the layout and xor links of the longer queue. |
| CacheList.OldestLink | tinydnssec-x/dq-20161210/dq/cache.c:40-52 | The globally oldest entry is the tail of its bucket, so its link is the position of one neighbour. |
| Cache.WalkStep | tinydnssec-x/dq-20161210/dq/cache.c:146-150 | Xoring an entry's link with the newer neighbour leads to the older neighbour. |
| Cache.HashRange | tinydnssec-x/dq-20161210/dq/cache.c:96-103 | A hash is a multiple of four inside the table of head links. |
| Cache.TotalRuns | tinydnssec-x/dq-20161210/dq/cache.c:33-57 | The two runs of bytes hold the whole queue and nothing else. |
| Cache.Pressure | tinydnssec-x/dq-20161210/dq/cache.c:173-190 | An entry leaves only if the entries since it and the new one exceed the buffer less one largest entry. |
| Cache.FindNewest | tinydnssec-x/dq-20161210/dq/cache.c:106-156 | What was set last for a key is what a lookup finds. |
| Cache.FindOther | tinydnssec-x/dq-20161210/dq/cache.c:106-156 | Setting another key changes an answer only by pushing the entry past the hundred steps of the walk. |
| Cache.FindEvicted | tinydnssec-x/dq-20161210/dq/cache.c:181-189 | Evicting changes the answer for the evicted key only, and only if no newer entry has the key. |
| CacheHistory.RecentSet | tinydnssec-x/dq-20161210/dq/cache.c:158-208 | Whatever `cache_set` does, the queue stays the newest part of all entries ever set, an entry gone only under pressure, and the last one only if it is larger than the room. |
| CacheHistory.LastFound | tinydnssec-x/dq-20161210/dq/cache.c:106-208 | An entry that fits is found right after it was set. |
| CacheHistory.Lasting | tinydnssec-x/dq-20161210/dq/cache.c:106-208 | Over any number of calls the entry set last for a key answers a lookup, while it and the newer ones leave room for a largest entry and at most a hundred of them share its bucket. |
| CacheFile.Dump | tinydnssec-x/dq-20161210/dq/cache.c:248-288 | The file holds the records of the queue in order, without those that start with type AXFR or ANY; only of an entry of fewer than two bytes, what stands behind it in memory decides. |
| CacheFile.Load | tinydnssec-x/dq-20161210/dq/cache.c:291-339 | For any file and any cache: what the first rounds of the loop load, record by record with 32-bit positions, and whether it was left; the queue is the newest of all that was set, and into an empty cache with room for all, exactly the unexpired records are loaded, expiring at most a week ahead. |
| CacheFile.LoadEnds | tinydnssec-x/dq-20161210/dq/cache.c:321-335 | Loading ends, for any file, if and only if no position in it comes round again. |
| CacheFile.StraightEnds | tinydnssec-x/dq-20161210/dq/cache.c:321-335 | It ends if no 32-bit sum of lengths wraps. |
| CacheFile.NeverEnds | tinydnssec-x/dq-20161210/dq/cache.c:321-335 | A file of sixteen bytes whose lengths make the sum zero is read for ever. |
| CacheFile.RunOfDump | tinydnssec-x/dq-20161210/dq/cache.c:321-335 | Loading a dump ends, after all its records, in order. |
| CacheFile.Restore | tinydnssec-x/dq-20161210/dq/cache.c:248-339 | Dump, then load into a fresh cache of the same size: exactly the ordered queue of unexpired, non-internal entries, expiring at most a week ahead. |
| CacheFile.Reload | tinydnssec-x/dq-20161210/dq/cache.c:210-339 | The same from `cache_init` on. |
| CacheFile.LiveUnchanged | tinydnssec-x/dq-20161210/dq/cache.c:291-339 | If no entry expires later than in a week, as when the clock does not go back, the expiry times are restored, too. |
| Names.Length | tinydnssec-x/dq-20161210/dq/dns_domain.c:8-18 | The length of the name that starts the memory. |
| Names.FindSuffix | tinydnssec-x/dq-20161210/dq/dns_domain.c:51-74 | Found exactly if the second name is a tail of the first from some label on, up to case, and then the first such place. |
| Dots.FromDot | tinydnssec-x/dq-20161210/dq/dns_domain.c:76-141 | The result is that of the scanner specified on texts, and every name accepted is valid and of at most 255 bytes. |
| Dots.ScanName | tinydnssec-x/dq-20161210/dq/dns_domain.c:76-141 | Whatever is accepted from any state is a valid name of at most 255 bytes. |
| Dots.DotRoundTrip | tinydnssec-x/dq-20161210/dq/dns_domain.c:76-141 | The text of every valid name of at most 255 bytes is accepted and gives the name in lower case. |
| Dots.ToDotCat | tinydnssec-x/dq-20161210/dq/dns_dtda.c:4-35 | The text is the labels in lower case, joined by dots, unusual bytes in octal; a single dot for the root. |
| Packet.GetName | tinydnssec-x/dq-20161210/dq/dns_packet.c:32-79 | Success exactly if the bytes spell a name within 255 bytes and 1000 steps, and then that name, ending where `dns_packet_skipname` ends. |
| Packet.Skip | tinydnssec-x/dq-20161210/dq/dns_packet.c:15-30 | The end of the name's own bytes, 0 if they are malformed. |
| Packet.Copy | tinydnssec-x/dq-20161210/dq/dns_packet.c:5-13 | The bytes at a position, or failure beyond the end. |
| Packet.SpellsUnique | tinydnssec-x/dq-20161210/dq/dns_packet.c:32-79 | A position spells at most one name. |
| Response.Response.AddName | tinydnssec-x/dq-20161210/dq/response.c:25-52 | A name written is spelled at the place it starts, up to case, with at most one pointer more than labels, and ends where the message now ends; names written before stay readable; it fails only if the buffer is too full for the name. |
| Compress.ReadBack | tinydnssec-x/dq-20161210/dq/response.c:25-52 | What was written reads back by `dns_packet_getname` as the same name up to case and the same end, within its limits; names over 255 bytes are refused. |
| Response.Response.ReadName | tinydnssec-x/dq-20161210/dq/response.c:25-52 | After any successful calls every name written so far reads back so. |
| Response.Response.AddBytes | tinydnssec-x/dq-20161210/dq/response.c:16-23 | Bytes are appended exactly if they fit in 65535. |
| Response.Response.Query | tinydnssec-x/dq-20161210/dq/response.c:54-64 | A fresh header and one question with the name, type and class; no records. |
| Response.Response.RStart | tinydnssec-x/dq-20161210/dq/response.c:74-86 | A record is opened: owner name, type, class IN, lifetime (or zero), length still to be filled in. |
| Response.Response.AddData | tinydnssec-x/dq-20161210/dq/response.c:16-23 | Data of the open record is appended and everything before stays. |
| Response.Response.AddDataName | tinydnssec-x/dq-20161210/dq/response.c:25-52 | A compressed name in the data of the open record. |
| Response.Response.RFinish | tinydnssec-x/dq-20161210/dq/response.c:88-91 | The length field gets the real length and the section's count goes up by one, with the carry; the record joins the finished ones. |
| Response.Response.Cname | tinydnssec-x/dq-20161210/dq/response.c:93-98 | One answer record of type CNAME with the owner, lifetime and target given. |
| Response.Response.Parses | tinydnssec-x/dq-20161210/dq/response.c:54-91 | A finished message parses, trusting only its bytes, as header, one question and exactly the counted records, in order and to the last byte. |
| Response.Response.Tc | tinydnssec-x/dq-20161210/dq/response.c:113-117 | Header and question remain, every count is zero, and the truncation bit is set. |
| Response.Response.Nxdomain | tinydnssec-x/dq-20161210/dq/response.c:100-103 | The bits are set and the message stays well formed. |
| Response.Response.Servfail | tinydnssec-x/dq-20161210/dq/response.c:105-107 | The bits are set and the message stays well formed. |
| Response.Response.Id | tinydnssec-x/dq-20161210/dq/response.c:109-111 | The identification is replaced and the message stays well formed. |
| Message.ChainParses | tinydnssec-x/dq-20161210/dq/response.c:54-91 | A chain of records is what the parser finds. |
| RecordOrder.Smaller | tinydnssec-x/dq-20161210/dq/query.c:273-301 | The comparison decides the order by type and class, length of the owner, owner up to case, position. |
| PacketScan.StrictTotal | tinydnssec-x/dq-20161210/dq/query.c:273-301 | On the records of a packet this order is strict and total. |
| RecordSort.Sort | tinydnssec-x/dq-20161210/dq/query.c:884-901 | The positions are permuted, and no record is before an earlier one. |
| RecordSort.SiftIn | tinydnssec-x/dq-20161210/dq/query.c:889-900 | An element sifted in at a node leaves a heap below the node with the same elements. |
| RecordSort.NextSet | tinydnssec-x/dq-20161210/dq/query.c:907-920 | The records taken together are exactly those with the same owner up to case, type and class IN. |
| PacketScan.ScanAnswers | tinydnssec-x/dq-20161210/dq/query.c:810-838 | Success exactly if every answer and alias target can be read; the flags then say exactly whether some answer has the name and type asked, or is an alias of the name, and to what. |
| PacketScan.ScanAuthority | tinydnssec-x/dq-20161210/dq/query.c:840-857 | Success exactly if every record can be read; the flags then say exactly whether the section has a SOA or an NS record, and for which zone. |
| PacketScan.Positions | tinydnssec-x/dq-20161210/dq/query.c:871-882 | The positions of all records, each starting where the one before ends, exactly if all can be read. |
| PacketScan.TtlRead | tinydnssec-x/dq-20161210/dq/query.c:152-161 | A lifetime above a billion counts as zero; any other is brought between the minimum and a week. |
| RecordData.RData | tinydnssec-x/dq-20161210/dq/query.c:1137-1158 | Success exactly if the data can be read, and then its octets and uncompressed names. |
| RecordData.NextCached | tinydnssec-x/dq-20161210/dq/query.c:480-686 | What stands at a position of a cached set: a record, the end, or a length that leads too far. |
| RecordData.Piece | tinydnssec-x/dq-20161210/dq/query.c:925-1043 | Success exactly if what is read of the record can be read; then the bytes stored for it encode its data, if it is one of those stored. |
| RecordData.Collect | tinydnssec-x/dq-20161210/dq/query.c:122-145 | Success exactly if the data of every record to be stored, and of every SOA record, can be read; then what is stored for a set is the encoded data of all those records, in order, or nothing if that is more than 8192 bytes. |
| RecordData.AllReadCount | tinydnssec-x/dq-20161210/dq/query.c:922-1043 | What is stored for a set has one item list for each record that is to be stored. |
| RecordData.ReadBack | tinydnssec-x/dq-20161210/dq/query.c:480-686 | Every list of records reads back from its encoding. |
| RecordData.SetReadBack | tinydnssec-x/dq-20161210/dq/query.c:480-1043 | The bytes stored for a set read back, by the code for cached answers, as the data of the records of the packet. |
| Provenance.Look | tinydnssec-x/dq-20161210/dq/cache.c:106-156 | The lookup of the cache at the next reading of the clock; what is found under a key other than a marker's was stored by the resolver. |
| Provenance.Keep | tinydnssec-x/dq-20161210/dq/query.c:91-104 | The entry, with data a packet told about its owner, becomes the newest of the cache at the next reading of the clock; the queue of the cache is the newest of all that was set. |
| Provenance.Mark | tinydnssec-x/dq-20161210/dq/query.c:106-120 | The same for a marker. |
| Provenance.NewestFound | tinydnssec-x/dq-20161210/dq/query.c:91-120 | What was set last is found by a lookup of its key at any time before its expiry, if it fits the cache at all. |
| Provenance.StillFound | tinydnssec-x/dq-20161210/dq/query.c:91-120 | However many calls later, it is still found while it and the newer entries leave room for a largest one and at most a hundred of them share its bucket. |
| Provenance.HitTold | tinydnssec-x/dq-20161210/dq/query.c:480-686 | A cached set reads as data that packets from servers of a zone its owner is in told about the name. |
| Provenance.HitAlias | tinydnssec-x/dq-20161210/dq/query.c:464-477 | What is found under a CNAME key is one name, told as the alias. |
| Provenance.AliasTold | tinydnssec-x/dq-20161210/dq/query.c:818-833 | The alias found in the answers is told by a record about the name. |
| Reply.Rqa | tinydnssec-x/dq-20161210/dq/query.c:179-196 | The question of the reply is the name first asked, and its answers are the CNAME records from each alias to the next, up to the current name. |
| Reply.Emit | tinydnssec-x/dq-20161210/dq/query.c:1135-1160 | One more record owned by the end of the alias chain, of the type, lifetime, section and data given, its bytes in the message; the chain and the records before it stay. |
| Reply.EmitItems | tinydnssec-x/dq-20161210/dq/query.c:1137-1158 | The data of the record is the octets and names given, one after another. |
| Reply.Refused | tinydnssec-x/dq-20161210/dq/query.c:1071-1076 | The error code leaves the chain and the records as they are. |
| Resolver.Query.Doit | tinydnssec-x/dq-20161210/dq/query.c:344-1237 | For any packet, failure and cache content the call ends; if a question is sent, level is below 5, the names are set, the zone asked is a tail of the name, loop and level have advanced since the last call, and every address asked is that of a server of the zone; a reply answers what was asked, and every alias and record in it was told by a packet from a server of a zone its owner is in, or is local. Calls of `cache_set` are made at readings of the clock during the call, with data of the packet that came, or are markers. |
| Resolver.Query.Resolve | tinydnssec-x/dq-20161210/dq/query.c:1239-1265 | A query ends after at most 2500 calls of `doit`, with a failure or a reply to the name, type and class asked, in which every alias and every record, its data included, was told by a packet from a server of a zone its owner is in (heard by this query, or by the one that cached it), or is local; and every packet came from a server of its zone, as the packets before it told, if it is not configured. |
| Resolver.ResolveFirst | tinydnssec-x/dq-20161210/dq/query.c:1239-1265 | With an empty cache, every alias and record of the reply was told by a packet heard in this very query, or is local. |
| Resolver.Query.AskedServer | tinydnssec-x/dq-20161210/dq/query.c:743-773 | An address that is asked is configured for the zone, or was told for a name reached over told aliases from a told name server of the zone. |
| Resolver.Query.CatchUp | tinydnssec-x/dq-20161210/dq/dqcache.c:388-406 | A query under way stays valid, with its names, zones, servers and aliases, while others hear packets and use the cache. |
| Server.Server.constructor | tinydnssec-x/dq-20161210/dq/dqcache.c:68-78 | A server with an empty cache and no query under way. |
| Server.Server.Ask | tinydnssec-x/dq-20161210/dq/dqcache.c:112-159 | A question starts one query, or drops the one it had; the others stay as they are, and a reply is one whose every part was told. |
| Server.Server.Get | tinydnssec-x/dq-20161210/dq/dqcache.c:388-406 | Whatever comes for one query, all queries stay valid, no question takes more than 2500 calls of `doit`, and every reply given so far, to whichever client, starts at the name asked and was told by packets from servers of their zones, or is local. |
| Resolver.Query.Start | tinydnssec-x/dq-20161210/dq/query.c:1239-1254 | A query starts at level 0 with the name asked; type AXFR is refused. |
| Resolver.Query.NewName | tinydnssec-x/dq-20161210/dq/query.c:397-727 | The loop is counted and ends at 500; otherwise the name is answered, refused, aliased or lowered a level, or its control zone becomes the closest zone above it with servers configured, or in the cache at a reading of the clock during the call. |
| Resolver.Query.FindServers | tinydnssec-x/dq-20161210/dq/query.c:690-727 | The control zone found has servers, configured or cached at a reading of the clock, and every longer tail of the name had none at such a reading; the servers become those configured, or the names those cached. |
| Zones.ClosestStill | tinydnssec-x/dq-20161210/dq/query.c:690-727 | While the clock stands still, the zone found is exactly the longest tail of the name with servers. |
| Resolver.Query.HaveNs | tinydnssec-x/dq-20161210/dq/query.c:730-773 | A name server still to be resolved opens one level more, below 5; otherwise the question is sent, unless no server is left. What is put into the cache on the way are markers. |
| Resolver.Query.SharedSecret | tinydnssec-x/dq-20161210/dq/query.c:749-766 | Only markers enter the cache, at a reading of the clock. |
| Resolver.Query.LowerLevel | tinydnssec-x/dq-20161210/dq/query.c:776-781 | One level less, whose name and zone are as they were left. |
| Resolver.Query.HavePacket | tinydnssec-x/dq-20161210/dq/query.c:784-1222 | Servers change only by dropping a lame one or by a followed referral, whose zone is strictly closer to the name and still a tail of it; a reply holds exactly the records of the packet about the name, every one of which could be read. |
| Resolver.Query.Consume | tinydnssec-x/dq-20161210/dq/query.c:861-1222 | A referral that is not strictly inside the zone drops the server and stores nothing. Otherwise the packet's sets are put into the cache, each once and whole, and then that there is nothing, if the packet says so. |
| Resolver.Query.Refer | tinydnssec-x/dq-20161210/dq/query.c:1187-1222 | A followed referral makes the control zone the referred one, strictly longer than before, and the names to look up the first sixteen name servers the packet has for it; in forward-only mode the server is dropped instead. |
| Zones.ReferralLonger | tinydnssec-x/dq-20161210/dq/query.c:861-866 | A referral inside the zone and different from it is a strictly longer tail of the name. |
| Resolver.Query.Decide | tinydnssec-x/dq-20161210/dq/query.c:1050-1222 | An alias leads on exactly if there is one, and it was told; NXDOMAIN exactly on rcode 3 without an alias; that there is no such name, or nothing of the type, is put into the cache exactly then, for the name, and a lookup finds it; referrals lead to the servers or fail. |
| Resolver.Query.StoreSet | tinydnssec-x/dq-20161210/dq/query.c:922-1043 | Failure exactly if the set is one to be stored and its data cannot be read. A set is put into the cache if and only if its owner is in the zone of the servers asked and has the same configured servers, its type is not ANY or AXFR, a SOA record is an answer and the data is at most 8192 bytes; then under its type and owner, with the data of all its records, the flag for name servers, and the lifetime of the first, for NS records of the zone itself at most that in the cache; a lookup of the key right after finds it. |
| Resolver.Query.StoreRecords | tinydnssec-x/dq-20161210/dq/query.c:871-1048 | The records of the packet are sorted, every set of class IN is taken exactly once, whole, and put into the cache or not as above; the queue of the cache is the newest of all that was set, these entries last. |
| Resolver.Query.Store | tinydnssec-x/dq-20161210/dq/query.c:91-104 | Only owners of at most 255 bytes are stored; the entry is then the newest of the cache, set at the next reading of the clock, and a lookup finds it. |
| Resolver.Query.NoAnswer | tinydnssec-x/dq-20161210/dq/query.c:390-391 | When no server answers, a marker under the name and the type asked enters the cache for ten seconds, and a lookup finds it. |
| Resolver.Query.KnownSet | tinydnssec-x/dq-20161210/dq/query.c:480-686 | A cached set of a type reads as the data it was stored with, told about the name. |
| Resolver.Query.KnownFailure | tinydnssec-x/dq-20161210/dq/query.c:449-461 | A name is known not to exist exactly if the lookup under ANY has an entry, and a server to fail exactly if that has none and the next lookup an empty marker. |
| Resolver.Query.CachedAlias | tinydnssec-x/dq-20161210/dq/query.c:448-478 | An alias is followed exactly if neither failure is known and the third lookup has one. |
| Resolver.Query.CachedSet | tinydnssec-x/dq-20161210/dq/query.c:480-555 | The question is answered exactly if the lookup at the next reading of the clock has an entry, unless that is empty and everything was asked for; the reply then has exactly one record for each record of the stored set, with its data, in order, and the lifetime the entry has left. |
| Resolver.Query.AddCached | tinydnssec-x/dq-20161210/dq/query.c:486-491 | The records added are those the cached bytes read as, in order. |
| Zones.PushAlias | tinydnssec-x/dq-20161210/dq/query.c:1055-1060 | A name pushed onto the aliases extends the chain by one link, whose target was told. |
| Resolver.Query.DoCname | tinydnssec-x/dq-20161210/dq/query.c:1053-1064 | At level 0 the chain of aliases grows by the name, at most sixteen times; its start stays the name asked, and every link was told. |
| Resolver.Query.Refuse | tinydnssec-x/dq-20161210/dq/query.c:1071-1076 | At level 0 a reply with the chain, no records and the error code; above, one level less. |
| Resolver.Query.CopyRecords | tinydnssec-x/dq-20161210/dq/query.c:1126-1180 | The records of a section about the name, of the type asked and class IN, are copied into the reply: all of them, in order, with type, lifetime and data; success only if the data of each could be read. |
| Resolver.Query.ReplyFromPacket | tinydnssec-x/dq-20161210/dq/query.c:1124-1184 | After the chain the reply holds exactly the answers of the packet about the name, then the name servers of its authority section about the name, the data of each of which could be read. |
| Resolver.Query.Step | tinydnssec-x/dq-20161210/dq/query.c:397-1237 | Every label leads to a smaller one in the order of loop, level and label. |
| Resolver.Query.AddServer | tinydnssec-x/dq-20161210/dq/query.c:303-339 | The address, one of the name sought, takes the first free place of the level below, twice if it has a key; without the keys themselves. The level below then still has only servers of its zone. |
| Resolver.Query.AddServers | tinydnssec-x/dq-20161210/dq/query.c:569-634 | All addresses of a cached set, in order, become servers of the level below. |
| Resolver.Query.ServersFromAnswers | tinydnssec-x/dq-20161210/dq/query.c:1097-1120 | All addresses of the right length in the answers about the name, in order, become servers of the level below. |
| Digest.NsFromPacket | tinydnssec-x/dq-20161210/dq/query.c:1206-1219 | The first sixteen names in the NS records of the zone, each told about it. |
| Digest.NsFromCache | tinydnssec-x/dq-20161210/dq/query.c:712-718 | The first sixteen names of the cached set, in order, each told as a name server of the zone. |
| CurveName.EncodeBytes | tinydnssec-x/dq-20161210/dq/dns_base32.c:13-37 | The text of the bytes in labels of at most 50, of exactly `dns_base32_bytessize` bytes, also over the input: no byte is overwritten before it is read as long as the output does not end after the input. |
| CurveName.EncodeKey | tinydnssec-x/dq-20161210/dq/dns_base32.c:39-56 | A label of 54 bytes: x1a and 51 digits. |
| Base32.RoundTrip | tinydnssec-x/dq-20161210/dq/dns_base32.c:13-37 | Every byte string is recovered from its text. |
| Base32.KeyRoundTrip | tinydnssec-x/dq-20161210/dq/dns_base32.c:39-56 | A key is recovered from its 51 digits exactly if its top bit is zero. |
| CurveName.Decode | tinydnssec-x/curvedns-0.88/misc.c:250-293 | The bytes of the number the digits denote, if every character is a digit, nothing is left over and they fit. |
| CurveQuery.TxtQuery | tinydnssec-x/dq-20161210/dq/dns_transmit.c:83-118 | Behind the header stands a name from which the server recovers nonce, box and zone offset, and the key exactly if its top bit is zero; then type TXT and class IN. |
| CurveReply.JoinStrings | tinydnssec-x/dq-20161210/dq/dns_transmit.c:171-183 | The strings are joined in place at the front of the buffer exactly if the last one is complete. |
| CurveReply.GetQuery | tinydnssec-x/dq-20161210/dq/dns_transmit.c:156-185 | Accepted exactly if the packet answers the query sent, and then the joined strings. |
| CurveQuery.ParseName | tinydnssec-x/curvedns-0.88/dnscurve.c:105-153 | The box, key and zone offset the query name means, for every name. |
| CurveQuery.TxtRoundTrip | tinydnssec-x/curvedns-0.88/dnscurve.c:105-148 | The client's name is a valid name; nonce and box up to 2560 bytes, zone offset and every key below 2^255 are recovered exactly. |
| CurveReply.WriteStrings | tinydnssec-x/curvedns-0.88/dnscurve.c:521-535 | The payload is written as strings of 255 bytes and a shorter last one. |
| CurveReply.JoinSplit | tinydnssec-x/curvedns-0.88/dnscurve.c:521-535 | Joining undoes splitting. |
| CurveReply.ServerReply | tinydnssec-x/curvedns-0.88/dnscurve.c:479-536 | The whole packet, exactly if there is room. |
| CurveReply.ReplyAccepted | tinydnssec-x/curvedns-0.88/dnscurve.c:479-536 | The client accepts the server's packet and recovers the payload. |
| SecretTable.GetSharedSecret | tinydnssec-x/curvedns-0.88/dnscurve.c:48-79 | With or without the table the packet gets the secret recomputing would give; the table stays honest. |
| SecretTable.DnscurveInit | tinydnssec-x/curvedns-0.88/dnscurve.c:81-102 | A table of at least five entries, or failure. |
| SecretTable.Table.constructor | tinydnssec-x/curvedns-0.88/cache_hashtable.c:76-120 | All entries are in the unused list and every bucket is empty, for every size from one entry on. |
| SecretTable.CacheInit | tinydnssec-x/curvedns-0.88/cache_hashtable.c:76-120 | A table exactly if there are buckets and at least as many entries. |
| SecretTable.Table.Get | tinydnssec-x/curvedns-0.88/cache_hashtable.c:122-139 | The entry set last for the key among those in the table, or none. |
| SecretTable.Table.Set | tinydnssec-x/curvedns-0.88/cache_hashtable.c:141-197 | The queue loses its oldest entry if the table is full and gains the new one; every pointer invariant holds. Of a full table a used list from its head to its tail is left if and only if the table has at least two entries; a table of one entry that lost it stays broken, and every further call follows NULL. |
| SecretTable.Table.Evict | tinydnssec-x/curvedns-0.88/cache_hashtable.c:157-165 | The head of the used list leaves its bucket and the next becomes the head; alone in the table, it is still the tail. |
| SecretTable.Table.Empty | tinydnssec-x/curvedns-0.88/cache_hashtable.c:199-226 | The table is empty, every former key and secret is wiped, every entry is unused; a broken table of one entry keeps its secret. |
| SecretTable.EvictRep | tinydnssec-x/curvedns-0.88/cache_hashtable.c:157-165 | The oldest entry is the last of its bucket, and unlinking it keeps the lists, the buckets and the order of the rest. |
| SecretTable.LinkRep | tinydnssec-x/curvedns-0.88/cache_hashtable.c:176-191 | Linking an entry keeps them and makes it the newest. |
| SecretTable.SingleEntryBreaks | tinydnssec-x/curvedns-0.88/cache_hashtable.c:149-191 | With one entry, for all keys and secrets, the second call leaves no head of the used list with one entry in use, and the third follows NULL. |
| SecretTable.SingleEntryKeepsSecret | tinydnssec-x/curvedns-0.88/cache_hashtable.c:199-226 | With one entry `cache_empty` leaves the second secret in memory, and the next `cache_set` follows NULL. |
| Nonce.Generator.Next | tinydnssec-x/dq-20161210/dq/dns_nonce.c:89-105 | Over a whole run of fewer than 2^63 calls with a clock that may stall or go back, no nonce was issued before; it is the masked random byte with the separation bits, three random bytes and the encrypted counter; the bits are lost if the clock read zero at the start. |
| Nonce.Generator.Init | tinydnssec-x/dq-20161210/dq/dns_nonce.c:27-56 | Mask and bits as the start string says; more than eight bits are refused. |
| Nonce.Encrypt | tinydnssec-x/dq-20161210/dq/dns_nonce.c:58-80 | The 32 rounds of TEA with 32-bit wrap-around. |
| Nonce.TeaInjective | tinydnssec-x/dq-20161210/dq/dns_nonce.c:58-80 | Different counters are encrypted differently. |
| Nonce.NoRepeat | tinydnssec-x/dq-20161210/dq/dns_nonce.c:89-105 | No two nonces of a run are equal. |
| Nonce.Separate | tinydnssec-x/dq-20161210/dq/dns_nonce.c:27-105 | Two generators whose start strings are not prefixes of each other have no nonce in common, over whole runs, if neither read zero from the clock at the start. |
| Nonce.ZeroClockCollides | tinydnssec-x/dq-20161210/dq/dns_nonce.c:89-105 | If one of them read zero, then for every pair of start strings there are runs that share a nonce. |
| Transmit.Transmission.Start | tinydnssec-x/dns_transmit.c:198-221 | A question under way with its name, type and class, or everything freed; long questions start with TCP. |
| Transmit.Transmission.Get | tinydnssec-x/dns_transmit.c:240-356 | 1: socket closed, question freed, a packet held that answers it with rcode 0 or 3 and is not truncated; -1: everything freed; 0: still under way, and never back from TCP to UDP. |
| Transmit.Transmission.ThisUdp | tinydnssec-x/dns_transmit.c:98-134 | The next attempt over UDP is later in round and server than all before, or everything is freed. |
| Transmit.Transmission.ThisTcp | tinydnssec-x/dns_transmit.c:148-184 | The next attempt over TCP is to a later server than all before, or everything is freed. |
| Transmit.Transmission.Next | tinydnssec-x/dns_transmit.c:142-196 | Going on always makes at least one new attempt or frees everything. |
| Transmit.Irrelevant | tinydnssec-x/dns_transmit.c:33-54 | A packet is relevant exactly if identification, question name up to case, type and class match. |
| Transmit.AttemptsBounded | tinydnssec-x/dns_transmit.c:98-196 | At most 64 attempts over UDP, then at most 16 over TCP, none over UDP after one over TCP. |

## Left out

- Sockets, the event loops, logging, configuration files, the command-line tools and the installer: input and output only.
- Allocation failure in the message parser, the cache and the message builder: taken to succeed; in the resolver and the retry machine it may fail wherever they allocate themselves.
- The counters `cache_hit`, `cache_miss` and `cache_motion` and the statistics of the resolver: they influence nothing.
- Errors of reading and writing the dump file.
- CacheFile.Load: for files of less than 4 GB less one entry, since the code holds positions in 32 bits; a dump has at most 3 GB.
- The resolver's DNSCurve keys per server and the random order of servers: they do not decide where a query goes next; that secrets are put into the cache is modelled, with keys and secrets as outside events.
- Resolver.Query.AddServer: without the key that goes with an address, as keys per server are left out.
- Nonce.Generator.Next: the length of the separation space is one byte, the value the source is compiled with.
- `salsa_core`, `siphash` and the key computation of the box: functions whose bits do not matter here.
- Transmit.Transmission.Get: timeouts are an outside event; deadlines are not computed.
- The older copies of the resolver, cache, message builder and parser in the top directory, and the zone data tools built on cdb.
