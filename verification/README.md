# A Dafny model of the base utilities: MPI helper, containers, MT19937, configuration reader

This project models the integer, index and string logic of a small C++ utility base for
parallel simulation codes. It has five parts, all verified with Dafny 4.11.

- **The MPI utility class** (`mpiutils`):
  - the start-up check that the three domain extents multiply to the number of processes;
  - the Cartesian process grid, that is, rank/coordinate numbering and neighbors (sections 7.4 and 7.5.6 of MPI-3.1);
  - the names of the temporary and per-process files, and the neighbor report of `info()`;
  - the singleton that `initialize` / `finalize` / `getInstance` manage;
  - the token ring that concatenates the per-process logs in rank order at shutdown;
  - the halo exchange: its tag table, its four-region buffer layout, the requests it posts, and what a completed exchange leaves in every process's buffer.
- **`NArray<T, R>`** for R = 1..6: strides, size, element offsets and the nested pointer table.
- **`SArray1D` .. `SArray5D`**: the `ndim` / `size` / `dims` constants and the element layout of the built-in nested array.
- **`MersenneTwister`**: MT19937 as the class holds it, covering `init_genrand`, `init_by_array`, regeneration, tempering, `genrand_int32` / `genrand_int31`, the default constructor and the copy constructor.
- **`ConfigParser`**: comment removal, the key=value line pattern, group extraction and `trim`, first-definition-wins insertion, and string/int lookup.

## Modules

| file | module | what it holds |
|---|---|---|
| wrappers.dfy | Wrappers | `Option` and `Result` |
| slices.dfy | Slices | where the parts of a concatenated string lie |
| decimal.dfy | Decimal | the `%d`, `%Nd` and `%0Nd` conversions, and `atoi` (section 7.22.1.2 of ISO C11) |
| row_major.dfy | RowMajor | row-major strides, offsets, the Horner form, the inverse map, lexicographic successor |
| topology.dfy | Topology | the process grid: `MPI_Cart_coords`, `MPI_Cart_rank`, `MPI_Cart_shift` |
| halo.dfy | Halo | tags, the requests of `bc_exchange_dir_begin` / `bc_exchange_begin`, whole-grid completion |
| token_ring.dfy | TokenRing | the `concatenate_stream` ring as an interleaving of per-process steps |
| session.dfy | Session | the constructor, file names, `info`, and the singleton lifecycle |
| narray.dfy | NArrayModel | `NArray` construction, `reshape`, `getSize`, `operator()` |
| sarray.dfy | SArrayModel | the static arrays and their nested layout |
| mersenne_twister.dfy | MersenneTwister | MT19937 |
| config.dfy | Config | `ConfigParser` |

## How the MPI runtime is modelled

- **Runtime results.** The results of `MPI_Comm_size`, `MPI_Comm_rank` and `argv[0]` are parameters.
- **Cartesian grid.** Reordering is disabled, so a process keeps its world rank. The Cartesian functions are pure functions defined as in MPI-3.1:
  - ranks are numbered row-major over the process extents (section 7.4);
  - a shift wraps modulo the extent on a periodic direction and gives `MPI_PROC_NULL` past the edge of a non-periodic one (section 7.5.6).
- **Halo exchange.** It is a synchronous function over the memories of all processes:
  - sends and receives are paired by the non-overtaking rule of section 3.5 of MPI-3.1: the k-th receive a process posts from peer q with tag t takes the k-th send that q posts to it with tag t, both counted in posting order;
  - a receive from `MPI_PROC_NULL` leaves its region unchanged (section 3.11);
  - completion succeeds or fails on the receives only, and a send that no receive takes still counts as completed, although under MPI such a standard-mode `MPI_Isend` need not complete in the wait. The plans that `bc_exchange_dir_begin` and `bc_exchange_begin` post never leave such a send: in the exchange lemmas every send is taken by the neighbor's facing receive.
- **Token ring.** It is a state machine with buffered sends. Every process takes six steps: wait, write and pass for stdout (tag 0), then the same for stderr (tag 1). Any schedule may run them.
  - Each process writes its blocks to its own `std::cout` / `std::cerr` (mpiutils.hpp:157-160, 187-190), and the launcher merges what the processes write.
  - `out[t]` is the global order in which the writes to stream t happen. The model assumes the merge keeps that order. Each block is flushed before the token passes on.

## Model

| member | source | states |
|---|---|---|
| Topology.CoordOf | mpiutils.hpp:127-128 | The coordinate of a rank lies inside the grid and numbers back to that rank. |
| Topology.RankOf | mpiutils.hpp:121-122 | An in-range coordinate gets a rank below the process count, and that rank's coordinate is the given one. |
| Topology.RankCoordRoundTrip | mpiutils.hpp:121-128 | Rank to coordinate to rank is the identity on [0, nprocess). Every coordinate component lies in [0, dims[d]). |
| Topology.CoordRankRoundTrip | mpiutils.hpp:117-122 | Coordinate to rank to coordinate is the identity on in-range coordinates. |
| Topology.Neighbor | mpiutils.hpp:124-126 | The lower (slot 0) or upper (slot 1) neighbor is `MPI_PROC_NULL` exactly at the edge of a non-periodic direction. Otherwise it is the process whose coordinate is one step down or up along that direction, modulo the extent. |
| Topology.NeighborSymmetry | mpiutils.hpp:124 | Q is the lower neighbor of P along d exactly when P is the upper neighbor of Q along d. |
| Topology.NeighborTable | mpiutils.hpp:124-126 | The neighbor table has three directions of two slots. Slot 0 of direction d is the lower and slot 1 the upper neighbor that `MPI_Cart_shift(d, +1)` reports, so every entry obeys the edge and wrap rules of Topology.Neighbor. |
| Topology.ShortPeriodicDirection | mpiutils.hpp:125 | On a periodic direction of extent 1 or 2, both neighbors are the same process. With extent 1 that process is the caller itself. |
| Session.Startup | mpiutils.hpp:90-140 | The constructor exits with status -1 exactly when the extents do not multiply to nprocess, and only rank 0 writes a diagnostic. It aborts exactly when they multiply correctly but some extent is not positive. Otherwise it records a consistent rank, coordinate, neighbor table, periodicity and concat flag. |
| Session.StartupSucceeds | mpiutils.hpp:101-113 | Start-up succeeds exactly when the three extents are positive and their product is the process count. |
| Session.DiagnosticNamesCount | mpiutils.hpp:103-108 | The `Diagnostic` text opens with its fixed head, and its `%4d` field reads back, through atoi, as the process count. |
| Session.TempNamesDistinct | mpiutils.hpp:132-137 | Distinct ranks get distinct `%s_PE%04d.stdout` names, and no stdout name equals any stderr name. |
| Session.TempNameFields | mpiutils.hpp:132-137 | A temporary name starts with the program name and "_PE". Its `%04d` field reads back, through atoi, as the rank, and the name ends with the stream's name. |
| Session.StreamLast | mpiutils.hpp:137 | A temporary name ends in the last letter of its stream's name. |
| Session.GetFilename | mpiutils.hpp:266-276 | The coordinates that `getFilename` prints lie inside the process grid. The name starts with the prefix, ends with the extension, and holds at least 13 characters between them. |
| Session.GetFilenameDistinct | mpiutils.hpp:266-276 | On grids of at most 1000 processes per direction, two processes of one grid get the same file name exactly when they are the same process. |
| Session.FileNameFields | mpiutils.hpp:268-274 | For coordinates below 1000, the name is 13 characters longer than prefix plus extension, and each coordinate fills three fixed character positions. |
| Session.FileNameInjective | mpiutils.hpp:266-276 | For a fixed prefix and extension, equal names mean equal coordinates over [0, 1000)^3. The first field reads back as the first coordinate. |
| Session.InfoFields | mpiutils.hpp:281-291 | `info` opens with its banner. Its "Number of Process" field reads back, through atoi, as the process count, and the field after "This Rank           : " as the rank. |
| Session.InfoLineFields | mpiutils.hpp:310-315 | Each neighbor line opens with " neighbor in dir ", and its `%1d` field reads back as the direction. |
| Session.InfoTriple | mpiutils.hpp:299-309 | `info` prints (-1, -1, -1) exactly for `MPI_PROC_NULL`. Otherwise it prints an in-range coordinate that numbers to the neighbor. |
| Session.InfoNeighbor | mpiutils.hpp:294-315 | The printed neighbor triple is (-1, -1, -1) exactly for a missing neighbor. Otherwise it is the process's own coordinate moved one step (wrapped) along the direction. |
| Session.Initialize | mpiutils.hpp:202-211 | With an instance present, initialize returns it and changes nothing. After finalize, it is refused. On a fresh process, it yields an instance exactly when start-up succeeds. A ready result keeps the invariant "an instance exists exactly while MPI runs". |
| Session.InitializeIdempotent | mpiutils.hpp:206-210 | Once initialize has produced an instance, any further initialize, whatever its arguments, returns the same instance and state. |
| Session.Finalize | mpiutils.hpp:214-217 | Finalize leaves no instance. It does nothing when there was none. Otherwise MPI ends finalized, and the log concatenation runs exactly when concat was requested. |
| Session.GetInstance | mpiutils.hpp:220-229 | getInstance returns the instance. It writes the error message exactly when there is none. |
| Session.AfterFinalize | mpiutils.hpp:157-167 | After the destructor, getInstance reports the error, a second finalize is a no-op, and a new initialize is refused. |
| Halo.Tag | mpiutils.cpp:13 | The table entry tag[d][s] is 2d + s. |
| Halo.TagsDistinct | mpiutils.cpp:13 | The six direction/side tags are pairwise distinct. |
| Halo.DirBegin | mpiutils.cpp:83-100 | The four requests cover consecutive regions of size dsize*count at offsets 0, size, 2·size and 3·size of one buffer. The first two are sends and the last two receives. Requests 0 and 2 address the lower neighbor, 1 and 3 the upper one. |
| Halo.Begin | mpiutils.cpp:18-78 | The twelve requests of `bc_exchange_begin`: slot k works on buffer k / 4. |
| Halo.BeginIsThreeDirBegins | mpiutils.cpp:22-77 | `bc_exchange_begin` is the concatenation of `bc_exchange_dir_begin` for directions 0, 1 and 2, each on its own buffer with its own count. |
| Halo.Pairing | mpiutils.cpp:96-99 | A send of P and a receive of Q match (same tag, each other's peer) exactly in two cases. P's send-upper meets Q's receive-lower when Q is P's upper neighbor. P's send-lower meets Q's receive-upper when Q is P's lower neighbor. |
| Halo.FindSend | mpiutils.cpp:96-99 | The j-th send to a process with a tag (counting from 0) is found exactly when more than j such sends were posted. What is found is such a send, with exactly j such sends before it. |
| Halo.FindSendUnique | mpiutils.cpp:96-99 | A matching send preceded by exactly j matching sends is the one the j-th matching receive takes. |
| Halo.FindSendAppend | mpiutils.cpp:96-99 | Posting more requests does not move a send already posted. The j-th matching send lies in the first list when that list holds more than j, and otherwise in the second list, shifted by the first list's length. |
| Halo.DirSource | mpiutils.cpp:87-99 | A neighbor's exchange may sit anywhere in its plan. The receive facing it then takes the send region facing the receiver, provided it follows as many matching receives as the earlier part of the neighbor's plan has matching sends. |
| Halo.DirExchange | mpiutils.cpp:83-100 | Completing the exchange along d never fails. In every process, region 2 then holds the lower neighbor's region 1 and region 3 the upper neighbor's region 0. Both stay unchanged for `MPI_PROC_NULL`, and all other bytes and buffers stay as they were. This holds even when the lower and upper neighbor are the same process. |
| Halo.BeginExchange | mpiutils.cpp:18-78 | Completing all twelve requests does the three directional exchanges at once, direction d on buffer d. The tags keep the directions apart. |
| Halo.TwoDirExchanges | mpiutils.cpp:83-118 | Two exchanges along the same direction, on different buffers, may be in flight before one wait. Their tags coincide, but each buffer still gets its own exchange, because the k-th receive from a neighbor takes that neighbor's k-th send. |
| Halo.SelfExchangeTwice | mpiutils.cpp:83-118 | One process on a periodic grid exchanges with itself twice on buffers [1,2,0,0] and [3,4,0,0]. The buffers end as [1,2,2,1] and [3,4,4,3]. |
| Halo.Complete | mpiutils.cpp:105-118 | Waiting on every process's requests succeeds exactly when each process's receives all complete. Each process's memory is then what its own receives leave in it, each receive paired with a send by the non-overtaking rule. |
| Halo.ApplyRecvs | mpiutils.cpp:96-99 | Completing receives keeps every buffer's length. A buffer that no receive targets keeps its contents. |
| TokenRing.Fire | mpiutils.hpp:171-198 | One step of one process advances only that process's stage, and stdout and stderr only grow. |
| TokenRing.RingLinesRead | mpiutils.hpp:187-189 | A block's begin and end lines open with "--- begin " and "--- end   ". The rank field after " from PE =" reads back, through atoi, as the writer's rank. |
| TokenRing.BeginIsNotEnd | mpiutils.hpp:187-189 | No begin line equals an end line, whatever their streams and ranks. |
| TokenRing.FireInv | mpiutils.hpp:171-198 | Any one step of any process preserves the ring invariant. Each stream holds the blocks of ranks 0..k-1 in order. At most one token is in flight, from k-1 to k. Every passed token not yet consumed is in flight. |
| TokenRing.RunInv | mpiutils.hpp:180-197 | Every schedule that can run preserves the ring invariant. |
| TokenRing.OutputInRankOrder | mpiutils.hpp:157-161 | In every reachable state, stdout and stderr each hold the blocks of a prefix of the ranks, in ascending order. When all processes are done, both hold the blocks of all ranks and no token is in flight. |
| TokenRing.TokensAwaited | mpiutils.hpp:180-183 | A token in flight is addressed to a process that has not yet passed the matching wait. |
| TokenRing.Progress | mpiutils.hpp:180-197 | No deadlock: in a reachable unfinished state, the lowest unfinished process can take its next step. |
| TokenRing.Completes | mpiutils.hpp:157-198 | Some schedule finishes every process. stdout then holds each rank's stdout block between its begin and end lines, in rank order, stderr likewise, and no token is left. |
| MersenneTwister.InitGenrand | MersenneTwister.hpp:44-57 | mt[0] is the seed modulo 2^32, and each later word follows from its predecessor by the Knuth recurrence modulo 2^32. The index ends at N. |
| MersenneTwister.SeededUnique | MersenneTwister.hpp:46-56 | The recurrence determines the state: any 624 words that follow it from seed s are the words `init_genrand(s)` writes. |
| MersenneTwister.KeyIndexIsMod | MersenneTwister.hpp:76-78 | The key index wraps at the key length, so step t of the first loop uses key word t mod key_length. |
| MersenneTwister.AdvanceIsMod | MersenneTwister.hpp:76-85 | The position runs 1..N-1 and restarts at 1, so t steps after position i it is 1 + (i - 1 + t) mod (N - 1). |
| MersenneTwister.KeyLoop | MersenneTwister.hpp:69-79 | The first loop runs max(N, key_length) key steps from the state seeded with 19650218. It leaves the reference state and position. |
| MersenneTwister.MixLoop | MersenneTwister.hpp:80-86 | The second loop's mixing steps, from where the first loop stopped, compute the reference mixing. |
| MersenneTwister.KeyPhaseWords | MersenneTwister.hpp:73-75 | Every key step keeps all words below 2^32. |
| MersenneTwister.MixWords | MersenneTwister.hpp:81-83 | Every mixing step keeps all words below 2^32. |
| MersenneTwister.ByArrayWords | MersenneTwister.hpp:65-89 | After `init_by_array`, all 624 words are below 2^32 and mt[0] is 0x80000000, so the state is not all zero. |
| MersenneTwister.InitByArray | MersenneTwister.hpp:65-89 | `init_by_array` leaves a valid state with index N, equal to the reference words, with mt[0] = 0x80000000. |
| MersenneTwister.Twist | MersenneTwister.hpp:105-106 | One recurrence step of 32-bit words gives a 32-bit word. |
| MersenneTwister.NextWordStep | MersenneTwister.hpp:104-113 | Regenerating word k reads mt[k+1] and mt[k+M] from the old state while they lie below N, and from the new block from there on. |
| MersenneTwister.Regenerated | MersenneTwister.hpp:98-115 | The next block of the recurrence x[k+N] = x[k+M] ^ twist(x[k], x[k+1]) keeps all words below 2^32. |
| MersenneTwister.Regenerate | MersenneTwister.hpp:104-113 | The three in-place loops compute exactly the next block of the recurrence. |
| MersenneTwister.Temper | MersenneTwister.hpp:121-124 | Tempering maps 32-bit words to 32-bit words. |
| MersenneTwister.GenrandInt32 | MersenneTwister.hpp:92-127 | The state is regenerated exactly when mti >= N, and then the index restarts at 0. An unseeded state is first seeded with 5489. The draw is the tempered word at the index, below 2^32, and the index ends in [1, N]. |
| MersenneTwister.GenrandInt31 | MersenneTwister.hpp:130-133 | The 31-bit draw is at most 0x7fffffff. Doubled, it is the 32-bit draw without its lowest bit. The state moves as for `genrand_int32`. |
| MersenneTwister.UnseededUsesDefaultSeed | MersenneTwister.hpp:101-102 | A never-seeded state draws exactly what a state seeded with 5489 draws. |
| MersenneTwister.DrawsWithinBlock | MersenneTwister.hpp:118 | Within a block, draw k hands out the tempered word at the starting index plus k. |
| MersenneTwister.Default | MersenneTwister.hpp:172-180 | The default constructor always yields the state of `init_by_array({0x123, 0x234, 0x345, 0x456})`. |
| MersenneTwister.Copy | MersenneTwister.hpp:198-206 | The copy constructor reproduces all 624 words and the index, so the copy draws the same sequence. |
| NArrayModel.ComputeStrides | NArray.hpp:536-541 | The last stride is 1, and stride k is the product of the extents after k. |
| NArrayModel.Create | NArray.hpp:526-550 | The constructor records the extents and strides. Data is allocated exactly when every extent is positive. With a zero size, data and table stay null. In rank 1 the table aliases the data, and in higher ranks every row pointer agrees with the layout. |
| NArrayModel.Reshape | NArray.hpp:487-511 | `reshape`'s nested loops point the row of every in-bounds index prefix at the element (prefix, 0), and no other prefix gets a row. |
| NArrayModel.RowStartIsOffset | NArray.hpp:500-505 | The row pointer `data + i*shape[1]*...` plus j is the offset of the element (prefix, j). |
| NArrayModel.GetSize | NArray.hpp:579-582 | getSize is positive exactly when data is allocated, and then it equals the allocated length. |
| NArrayModel.Element | NArray.hpp:586-597 | For in-range indices, `operator()` addresses a position inside the allocated block, and that position maps back to the same index tuple. |
| NArrayModel.ElementBijection | NArray.hpp:251-258 | `operator()` is a bijection from in-range index tuples onto [0, getSize). |
| NArrayModel.ElementSteps | TestNArray.cpp:98-105 | Walking the index tuples in lexicographic order moves one element forward at a time, ending on the last element. |
| NArrayModel.TableAgrees | TestNArray.cpp:133-141 | `array[i1]...[iR]` reaches the same element as `a(i1, ..., iR)`: through the row of the prefix in rank 2 and up, through the aliased data in rank 1. |
| RowMajor.OffsetBijection | NArray.hpp:163-170 | The stride-weighted offset maps in-range tuples into [0, product), injectively and onto. |
| RowMajor.HornerIsOffset | TestSArray.cpp:64-68 | The nested form ((i1*N2 + i2)*N3 + ...) + iR equals the stride-weighted sum. |
| RowMajor.IncrementIsNextOffset | TestNArray.cpp:131-141 | The lexicographic successor of a tuple is the tuple at the next offset. There is none exactly at the last offset. |
| SArrayModel.Ndim | SArray.hpp:120 | ndim is the number of extents `dims` lists. |
| SArrayModel.Size | SArray.hpp:122 | size is the product of the extents `dims` lists. |
| SArrayModel.Dims | SArray.hpp:124 | dims lists between one and five extents, starting with N0. |
| SArrayModel.NestedIsOffset | SArray.hpp:115 | The C layout of `T data[N0]...[N4]` puts each element at its row-major stride offset. |
| SArrayModel.Position | TestSArray.cpp:62-68 | An in-range element lies inside the array, at its Horner-form offset. |
| SArrayModel.PositionBijection | SArray.hpp:108-116 | Distinct elements have distinct positions, and every position below size holds one. |
| SArrayModel.SameLayoutAsNArray | NArray.hpp:464-474 | A static array and an `NArray` of the same extents place every element at the same position. |
| Config.DiscardComment | configparser.hpp:57-61 | The result is the prefix of the line before the first '#', or the whole line when there is none. It contains no '#'. |
| Config.DiscardCommentIdempotent | configparser.hpp:51 | Discarding the comment twice changes nothing more. |
| Config.MatchAt | configparser.hpp:29-31 | A match found at a position has in-order groups of token characters, and the value group is a longest run. |
| Config.MatchAtShaped | configparser.hpp:30-31 | A match has the pattern's shape: blanks, key, blanks, '=', blanks, value. |
| Config.ShapedMatches | configparser.hpp:29-30 | Wherever the text has the pattern's shape, the recogniser finds the same key group, the same value start and a value at least as long. |
| Config.MatchesIffShaped | configparser.hpp:29-31 | A line matches exactly when some position starts text of the pattern's shape. |
| Config.Regexec | configparser.hpp:66 | A reported match has two in-order groups of token characters inside the line. |
| Config.RegexecLeftmost | configparser.hpp:66-71 | `regexec` reports no match only when no position starts one. Otherwise it reports the leftmost match. |
| Config.PairIffShaped | configparser.hpp:64-77 | `parse_line` yields a pair exactly when the line, comment dropped, holds text of the pattern's shape. In either extraction the key and the value are never empty. |
| Config.NoEqualsNoPair | configparser.hpp:68-71 | A line without '=' before its comment yields no pair and leaves every table unchanged. |
| Config.UnmatchedLineIgnored | configparser.hpp:69-70 | A line the pattern does not match leaves the table unchanged. |
| Config.Substr | configparser.hpp:74-75 | `substr(pos, len)` fails exactly past the end. Otherwise it yields at most len characters starting at pos, clipped at the end of the string. |
| Config.FirstNonBlank | configparser.hpp:82 | The first non-blank index, with only blanks before it, or none for an all-blank string. |
| Config.LastNonBlank | configparser.hpp:83 | The last non-blank index, with only blanks after it, or none for an all-blank string. |
| Config.Trim | configparser.hpp:80-86 | `trim` as written fails (npos passed to `substr`) exactly on all-blank or empty input. Otherwise its result starts with a non-blank. |
| Config.TrimBlanks | configparser.hpp:80-86 | `trim` as intended fails exactly on all-blank input. |
| Config.TrimShape | configparser.hpp:80-86 | `trim` as intended returns a non-empty slice with no blank at either end, and only blanks lie around it. |
| Config.TrimAgrees | configparser.hpp:85 | Without leading blanks, `trim` as written equals "drop the trailing blanks". |
| Config.TrimTokenBlanks | configparser.hpp:82-85 | Token text followed by blanks trims to the token text, both as written and as intended. |
| Config.Extract | configparser.hpp:74-75 | A cut-out key or value is never empty. |
| Config.IntendedIsGroup | configparser.hpp:74 | As intended, a cut-out key or value is exactly the group's text. |
| Config.IntendedPairShape | configparser.hpp:64-77 | As intended, every inserted key and value is a non-empty run of token characters that the line holds around an '='. |
| Config.ExtractAgrees | configparser.hpp:75 | The two extractions agree when the group starts the line or only blanks follow it. |
| Config.AsWrittenAgrees | configparser.hpp:73-76 | As written and as intended agree on a line that starts with its key and has only blanks after its value. |
| Config.LeadingBlankShiftsKey | configparser.hpp:74 | On " a=b", parse_line as written stores key "a=", where the intended key is "a". |
| Config.TrimKeepsTrailingBlanks | configparser.hpp:85 | On "  ab  ", `trim` as written returns "ab  ", where the intended result is "ab". |
| Config.Insert | configparser.hpp:76 | `std::map::insert` adds the key if absent and never overwrites a present one. |
| Config.LoadStep | configparser.hpp:50-53 | Reading one more line is one more parse_line on the table read so far. |
| Config.LoadNonEmpty | configparser.hpp:50-53 | The table read from any lines holds only non-empty keys with non-empty values. |
| Config.FirstValueSnoc | configparser.hpp:52 | Appending a line only decides keys that the earlier lines left undecided. |
| Config.LoadFirstWins | configparser.hpp:50-76 | The table built from the lines holds, for each key, the value of its first definition. |
| Config.ReadFile | configparser.hpp:26-54 | The read loop builds a table whose every key holds the value of the first line that defines it, and that holds no other keys. |
| Config.GetString | configparser.hpp:99-103 | `getAs<std::string>` returns the stored value and leaves the table unchanged when the key is present. When the key is absent, it returns "" and inserts the key with an empty value. |
| Config.GetInt | configparser.hpp:131-136 | `getAs<int>` reads a stored numeral back as its number and an absent key as 0, changing the table as the string lookup does. |
| Config.GetStringAfterRead | configparser.hpp:99-103 | After reading a file, a lookup yields the value of the key's first definition, or "" when no line defines it. |
| Config.GetStringStable | configparser.hpp:102 | Repeating a lookup returns the same value and changes nothing further. |
| Decimal.AtoiOfSigned | configparser.hpp:133-136 | `atoi` reads a `%d` numeral followed by a non-digit back as its number, negative numbers included. |
| Decimal.AtoiPastBlanks | configparser.hpp:135 | Blanks in front of text that does not start with white space do not change what `atoi` reads. |
| Decimal.ZeroPad | mpiutils.hpp:269 | `%0wd` prints digits only, at least w of them, and they read back as the number. |

## Left out

- MPI transport and runtime are not modelled:
  - `MPI_Init`, `MPI_Finalize` and `exit` are outcomes of the model functions;
  - `Isend`/`Irecv`/`Waitall` are replaced by the synchronous completion in Halo;
  - the status checks of `wait()` (mpiutils.cpp:105-118) are not modelled;
  - `MPI_Wtime` (`getTime`) returns floating point, and is not modelled.
- The last `MPI_Isend` of each ring stage (mpiutils.hpp:197) is never completed. Its request is dropped, its buffer `dummy` is a local that goes out of scope, and `MPI_Finalize` (mpiutils.hpp:164) runs with the request still pending, which section 8.7 of MPI-3.1 does not allow. The model assumes the runtime completes such a send and delivers its token.
- Stream redirection, temporary file creation, reading, removal and flushing are not modelled (mpiutils.hpp:131-155, 186-193). File contents are parameters of the token ring, and only the delimiter text and the order are modelled.
- The debugging `main` of mpiutils.cpp is not modelled.
- `MPI_Cart_get` also writes the grid's extents and periodicity back into the caller's `domain` and `period` arrays. That side effect on the caller is not modelled.
- The accessors `getNProcess`, `getThisRank`, `getCoord` and `getNeighbors` are the fields of `Session.Context`. They carry no row of their own.
- Session.Startup: the product `domain[0]*domain[1]*domain[2]` (mpiutils.hpp:101, 108) is an `int` product in the source, and the model multiplies unbounded integers. On a 32-bit `int`, the extents [65537, 65537, 1] multiply to 131073 after wrap-around, so the source would accept them for 131073 processes; the model rejects them.
- `Session.Startup`: an extent that is not positive is modelled as an abort, because `MPI_Cart_create` rejects such a grid under the default error handler. The exact MPI error text is not modelled.
- Floating point is not modelled: `genrand_real1/2/3`, `genrand_res53`, `normal`, the `rand*` double wrappers, and `type_cast<float/double>` via `atof`.
- Memory management is not modelled: `new`/`delete` in the `NArray` constructors and destructors, and `RESTRICT`. Pointers are offsets into the data block, and the element type is left out.
- Halo.RegionSize: the region size `dsize*count` is an `int` product in the source. Its overflow is not modelled; sizes are unbounded.
- `NArrayModel.Create`: extents are unbounded integers. The uint64 wrap-around of n1*...*nR in the source is not modelled.
- `NArrayModel.Reshape`: the R-1 nested loops of `reshape` are modelled as one loop over the index prefixes in the same lexicographic order.
- `NArrayModel.Element`: the model requires in-range indices. The source does not check bounds:
  - an index tuple whose flat offset leaves the data block is undefined behaviour;
  - an index tuple outside the extents whose offset still lands inside the block reads another element (`a(0,4)` on a 2×3 array is `data[4]`, the element `a(1,1)`), and the model does not cover such calls.
- The `SArray6D` static constants are defined for `SArray5D` with six parameters (SArray.hpp:143-151). That is not a valid definition of `SArray6D`'s constants, so `SArray6D` is not modelled.
- debug.hpp writes binary files through `array.ptr`, which neither container defines. It is not part of this model.
- common.hpp and TestConfig.cpp hold constants, open modes and `sizeof` printing only.
- `MersenneTwister.InitByArray`: the key must have 1 to 2^31 - 1 words. With length 0 the source reads `init_key[0]` out of bounds. `j` is an `int`, so longer keys overflow it.
- `MersenneTwister.MixLoop` takes its step count as a parameter. The source always runs N - 1 steps, and `InitByArray` calls it that way.
- `MersenneTwister.Temper`: only the 32-bit bound is stated. That tempering is invertible is not stated.
- Words are `bv64` (unsigned long on LP64), and every update keeps the source's explicit `& 0xffffffff`. A 32-bit `unsigned long` platform is not modelled separately.
- The regular expression engine is not modelled in general. A recogniser for the one line pattern stands in for `regcomp`/`regexec`. The `regcomp` failure exit, `print()`, and reading lines from the file are not modelled: the lines are a parameter.
- `Config.GetInt`: the value is an unbounded integer. What `atoi` does with a numeral outside the range of `int` is undefined in C and is not modelled.
- Config: each character stands for one byte. The source's `rm_so`, `rm_eo` and `substr` count bytes, so a multi-byte UTF-8 character before a group moves the as-written cut. On "é a=bcdef" the source stores key "a=bc", where the model stores "a=b".
- Strings are sequences of characters. An embedded NUL, which `c_str()` would cut short before `regexec`, is not modelled.
- The start-up diagnostic is written only by rank 0 (mpiutils.hpp:102-108); the other ranks call `MPI_Finalize` and exit without a message.

## Findings

| source | as written | input that shows it | evidently intended | confidence | as-written member | corrected member |
|---|---|---|---|---|---|---|
| configparser.hpp:74-75 | `str.substr(match[i].rm_so, match[i].rm_eo)` passes the group's end offset as the length | the line " a=b": the key group is [1, 2), and substr(1, 2) cuts "a=", so the key "a=" is stored | `substr(rm_so, rm_eo - rm_so)`, storing key "a" and value "b" | high, not executed | Config.LeadingBlankShiftsKey | Config.IntendedPairShape |
| configparser.hpp:80-86 | `trim` returns `str.substr(first, last + 1)`, passing an end index as the length | the string "  ab  " gives "ab  ", which keeps the trailing blanks | `str.substr(first, last - first + 1)`, giving "ab" | high, not executed; parse_line itself never passes a string with leading blanks (Config.TrimAgrees) | Config.TrimKeepsTrailingBlanks | Config.TrimShape |

The configuration reader is modelled with both extractions, selected by `Config.Extraction`. The lemmas about the table hold for either. `Config.IntendedPairShape` states the corrected behaviour.
