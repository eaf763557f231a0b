# Coherence signals over a record graph

This project is a Dafny model of the coherence engine in
`examples/data/framework/src/coherence.rs`, with proofs about it.

- **`CoherenceEngine`** is an imperative class.
  - It interns string ids into dense `u64` indices: `nodes`, `node_ids` and `next_id`.
  - It stores weighted edges between those indices, with edges below the minimum weight filtered out.
  - It builds the graph from data records.
  - It appends a `CoherenceSignal` to its history each time it measures the graph. A signal holds the cut estimate, partition sizes, high-degree cut nodes and the delta to the previous signal.
  - It detects Strengthened or Weakened events between consecutive signals.
- **`StreamingCoherence`** is a small state machine over time windows.
  - It buffers the records that fall in the current window.
  - The first record outside the window closes it. Closing rebuilds the engine from the buffer and emits that window's single signal.
  - The window then moves one step forward.

Modules, one file each:

- `Floats` is `f64` without rounding, plus the IEEE special values the code produces (∞ − ∞ = NaN).
- `Text` is decimal rendering for `signal_{k}`.
- `Framework` holds the crate-root records.
- `Estimate` holds the edge list, the cut heuristic, the partition sizes and the degree heuristic.
- `Graph` holds the interner invariant and what ingesting records adds.
- `Signals` holds the records, the delta and the history invariant.
- `Events` holds the event detector as functions.
- `Engine` holds the class `CoherenceEngine`.
- `Streaming` holds the class `StreamingCoherence`.
- `Scenarios` holds the crate's unit tests and a few worked examples, as verified clients.

Two class invariants tie the state together.

- **`CoherenceEngine.Valid`** requires:
  - the interner is a bijection onto `0 .. next_id-1`;
  - every edge joins registered nodes and passed the weight filter;
  - the history is well formed: signal `k` is `signal_k` with window id `k`, its delta is the difference to signal `k-1`, and so on.
- **`StreamingCoherence.Valid`** requires that the current window is the k-th window `[start_k, start_k + size)`. Here `start_k` is `origin` moved on by k steps, and `origin` is the timestamp of the record that opened the first window. `Streaming.KthStartClosedForm` proves `start_k = origin + k·step`.

Code behaviour that the model follows on purpose:

- **The cut value is a closed-form heuristic, not a minimum cut.** It is the total weight divided by `max(2E/N, 1)`. The `approximate` flag only sets `is_exact`.
- **Cut nodes are chosen by degree.** They are the nodes whose degree exceeds twice the integer average degree. They are not nodes incident to a cut.
- **Repeating an unchanged measurement gives delta 0 only for a finite cut.** For a graph with fewer than two nodes the cut is `+∞` and the delta is `∞ − ∞ = NaN`. `Signals.DeltaOfUnchangedCut` states both cases.
- **The detector emits only `Strengthened` and `Weakened`.** `Split`, `Merged`, `ThresholdCrossed` and `Anomaly` are declared but never produced.
- **Closing a window clears the whole engine, including its history.** Every streamed signal is therefore `signal_0` with no delta.
- **A rolled-over window does not re-buffer records.** With a step smaller than the size, records in the overlap are not carried into the next window. The record that triggers the rollover is buffered even when the new window does not contain it. An earlier-than-window record also triggers a rollover.
- **`TemporalWindow::contains` is assumed half-open, `[start, end)`.** It is defined at the crate root, which is not part of this model. Half-open matches how windows are built at coherence.rs:406-410 and 433-437.

## Model

| member | source | states |
|---|---|---|
| Engine.CoherenceEngine.constructor | examples/data/framework/src/coherence.rs:168-178 | a new engine satisfies the invariant, stores the configuration, and has empty maps, edges, history and boundaries, with next_id 0 |
| Engine.CoherenceEngine.AddNode | examples/data/framework/src/coherence.rs:181-191 | interning is idempotent: a known id returns its index and changes nothing; a new id gets index old next_id, next_id grows by one and both maps gain exactly that pair; the interner stays a bijection onto 0..next_id-1 and existing names and links are unchanged |
| Graph.InternedSize | examples/data/framework/src/coherence.rs:181-191 | under the interner invariant both maps have exactly next_id entries (the interner is dense) |
| Engine.CoherenceEngine.NodeCount | examples/data/framework/src/coherence.rs:205-207 | the number of registered names equals next_id |
| Engine.CoherenceEngine.EdgeCount | examples/data/framework/src/coherence.rs:210-212 | the edge count is the length of the named edge list |
| Engine.CoherenceEngine.AddEdge | examples/data/framework/src/coherence.rs:194-202 | below the minimum weight nothing changes; otherwise both endpoints are registered, exactly one edge with the given weight is appended, the named edge list gains exactly Link(source, target, weight), and the invariant is kept; the name table and next index are those of interning the source and then the target, so a new source gets the old next index and a new target distinct from it gets the index after |
| Engine.CoherenceEngine.PushEdge | examples/data/framework/src/coherence.rs:201 | appending an edge between registered nodes that passes the filter keeps the invariant and appends exactly its named link |
| Graph.NamedEdgesAppend | examples/data/framework/src/coherence.rs:199-201 | interning more names does not rename stored edges, and appending an edge appends exactly its named link |
| Engine.CoherenceEngine.BuildFromRecords | examples/data/framework/src/coherence.rs:215-223 | after ingestion the registered names are the old ones plus every record id and every target of a relationship that passes the filter, and the named edges are the old ones followed by one link per passing relationship, record by record and in order; the name table and next index are those of interning the names in call order (each record's id, then source and target of each passing relationship), so the new names, in order of first sight, get the consecutive indices old next_id, old next_id + 1, ... |
| Graph.InternAllFirstSight | examples/data/framework/src/coherence.rs:181-191 | interning a sequence of names, as repeated add_node calls do, keeps every known name's index and registers exactly the names of the sequence; the new names, each once and in order of first sight, get consecutive indices from the old next_id, which ends up advanced by their number |
| Graph.InternAllAppend | examples/data/framework/src/coherence.rs:181-191 | interning one sequence after another is interning their concatenation |
| Graph.RecordNamesMentioned | examples/data/framework/src/coherence.rs:215-223 | the names interned in call order are, as a set, exactly the names ingestion registers |
| Engine.CoherenceEngine.IngestRecord | examples/data/framework/src/coherence.rs:216-222 | one record adds its own id and its passing targets, and appends its passing relationships as links from it; the name table and next index are those of interning its id and then its relationships' names |
| Engine.CoherenceEngine.AddRelationships | examples/data/framework/src/coherence.rs:219-221 | a record's relationships add exactly their passing targets, and their links in order; the name table and next index are those of interning source and target of each passing relationship in turn |
| Graph.Mentioned | examples/data/framework/src/coherence.rs:215-223 | every record id is among the names ingestion registers |
| Graph.RelLinks | examples/data/framework/src/coherence.rs:219-221 | the links a record adds all start at that record, all pass the filter, and number at most its relationships |
| Graph.RecordLinks | examples/data/framework/src/coherence.rs:215-223 | every link that ingestion adds passes the weight filter |
| Engine.CoherenceEngine.ComputeFromRecords | examples/data/framework/src/coherence.rs:226-229 | the graph is extended as BuildFromRecords states, so names already interned keep their index and new names get consecutive indices in order of first sight, then exactly one signal is appended when the graph is non-empty, as ComputeSignals states |
| Engine.CoherenceEngine.ComputeSignals | examples/data/framework/src/coherence.rs:232-255 | on an empty graph it returns [] and leaves the history alone; otherwise it appends exactly one signal and returns the whole history; the new signal is signal_k for prior length k, its window runs from the first clock reading to the second with id k, the current counts, cut and partition, is_exact = !approximate, a valid cut-node choice, and the delta to the previous signal; the graph and boundaries are unchanged and the history invariant is kept |
| Estimate.MinCut | examples/data/framework/src/coherence.rs:258-278 | +∞ exactly when there are fewer than 2 nodes; 0 without edges; the total weight when 2E ≤ N; otherwise a value whose product with 2E/N is the total weight; between 0 and the total weight when weights are non-negative |
| Estimate.CutDivisor | examples/data/framework/src/coherence.rs:272-275 | the divisor is at least 1: it is 1 when 2E ≤ N, and otherwise 2E/N |
| Estimate.TotalWeightNonNegative | examples/data/framework/src/coherence.rs:266 | the total of non-negative weights is non-negative |
| Estimate.PartitionSizes | examples/data/framework/src/coherence.rs:281-288 | None exactly when N < 2; otherwise two sizes summing to N, both at least 1, differing by at most 1 |
| Engine.CoherenceEngine.FindCutNodes | examples/data/framework/src/coherence.rs:291-313 | at most 10 distinct registered names, each of a node whose degree exceeds twice the average; with fewer than 10, every such node is included |
| Estimate.CountDegrees | examples/data/framework/src/coherence.rs:294-299 | the degree table has exactly the indices that occur in an edge, each mapped to its number of edge ends |
| Estimate.TouchedIffDegree | examples/data/framework/src/coherence.rs:294-299 | an index is in the degree table exactly when its degree is positive |
| Estimate.AverageDegree | examples/data/framework/src/coherence.rs:301-305 | the average is 0 for an empty table, and otherwise the sum of the table's values (2E) divided by its size, in integer division |
| Estimate.DegreeSumTotal | examples/data/framework/src/coherence.rs:296-304 | when every edge end is below next_id, the degrees of indices 0..next_id-1 sum to 2E |
| Engine.SelectCutNodes | examples/data/framework/src/coherence.rs:307-312 | scanning the table in any order, filtering degree > 2·avg, naming and taking 10 yields a valid cut-node choice |
| Signals.Delta | examples/data/framework/src/coherence.rs:316-324 | None exactly for an empty history; otherwise finite exactly when both cuts are finite, and then the delta plus the previous cut equals the current cut |
| Floats.Sub | examples/data/framework/src/coherence.rs:323 | IEEE subtraction: NaN exactly for a NaN operand or ∞ − ∞ of one sign; finite exactly for finite operands, with the exact difference; +∞ minus anything but +∞ or NaN is +∞, −∞ minus anything but −∞ or NaN is −∞, and a finite value minus ±∞ is ∓∞ |
| Signals.DeltaOfUnchangedCut | examples/data/framework/src/coherence.rs:316-324 | an unchanged finite cut gives delta 0, and an unchanged infinite cut gives NaN |
| Text.DecimalString | examples/data/framework/src/coherence.rs:242 | the rendering of k is a non-empty string of digits, one character exactly when k < 10, with no leading zero, and it reads back as k digit by digit |
| Text.DecimalStringInjective | examples/data/framework/src/coherence.rs:242 | distinct numbers have distinct renderings |
| Signals.SignalIdInjective | examples/data/framework/src/coherence.rs:242 | SignalId renders the format! `signal_{k}`; signal_i = signal_j only when i = j |
| Signals.HistoryAppend | examples/data/framework/src/coherence.rs:240-252 | pushing a signal that is well formed for the next position, with its delta taken against the last cut, keeps the history invariant |
| Signals.HistoryIdsDistinct | examples/data/framework/src/coherence.rs:242-254 | the signals of a history have pairwise distinct ids |
| Floats.Abs | examples/data/framework/src/coherence.rs:335 | the magnitude is NaN exactly for NaN and finite exactly for finite input, never −∞, and for finite input it is the non-negative value of the same size |
| Events.EventFor | examples/data/framework/src/coherence.rs:331-350 | a signal yields an event exactly when it has a delta whose magnitude exceeds the threshold; the event is Strengthened exactly when the delta is positive and Weakened otherwise, with magnitude abs(delta), the signal's window start and its cut nodes; Floats.Greater models the f64 `>` used for both tests, which is false whenever an operand is NaN |
| Engine.CoherenceEngine.DetectEvents | examples/data/framework/src/coherence.rs:327-354 | reads the history without changing anything, and returns exactly the detected events of the history |
| Events.DetectedEventsLength | examples/data/framework/src/coherence.rs:327-354 | no events for fewer than two signals; at most len-1 events otherwise |
| Events.EventSources | examples/data/framework/src/coherence.rs:330-352 | the positions that yield an event, each between 1 and len-1, strictly ascending, and all of them |
| Events.DetectedEventsExact | examples/data/framework/src/coherence.rs:327-354 | the k-th detected event is the event of the k-th such position: one event per qualifying signal, in history order |
| Events.DetectedEventsAntitone | examples/data/framework/src/coherence.rs:327-354 | a higher threshold never yields more events, so detection can be re-run with any threshold |
| Events.HistoryEvents | examples/data/framework/src/coherence.rs:316-354 | on an engine history, signal i yields an event exactly when abs(cut_i − cut_(i-1)) exceeds the threshold; two infinite cuts in a row never yield one; a change between finite and infinite always does, and in particular a drop from +∞ to a finite cut is Weakened and a rise from a finite cut to +∞ is Strengthened, both with magnitude +∞ |
| Engine.CoherenceEngine.Clear | examples/data/framework/src/coherence.rs:367-373 | empties both maps, the edges and the history and resets next_id to 0, keeping the boundaries and the invariant |
| Streaming.OpeningWindow | examples/data/framework/src/coherence.rs:405-411 | the first window starts at the record's timestamp, has id 0, spans the configured size, and contains that timestamp exactly when the size is positive |
| Streaming.NextWindow | examples/data/framework/src/coherence.rs:432-437 | the next window starts one step later, keeps the size and has the next id |
| Streaming.KthStartClosedForm | examples/data/framework/src/coherence.rs:432-437 | the start of the k-th window, reached by moving the start one step at a time, is origin + k·step |
| Streaming.NextKthWindow | examples/data/framework/src/coherence.rs:423-437 | rolling over window k gives window k+1, so the k-th window always starts k steps after the first |
| Streaming.OpeningIsFirst | examples/data/framework/src/coherence.rs:405-411 | the opening window is window 0 of a stream with that origin |
| Streaming.WindowsTile | examples/data/framework/src/coherence.rs:406-437 | consecutive windows meet end to start exactly when the step equals the size |
| Streaming.EarlyRecordRollsOver | examples/data/framework/src/coherence.rs:414-420 | a record stamped before the window start is outside the window, so it closes it |
| Streaming.StreamingCoherence.constructor | examples/data/framework/src/coherence.rs:387-398 | the window size and step come from the configuration; there is no open window and no buffer; the engine is fresh and empty, with no history and no boundaries |
| Streaming.StreamingCoherence.FinalizeWindow | examples/data/framework/src/coherence.rs:446-459 | an empty buffer gives None and leaves the engine untouched; otherwise the engine holds exactly the graph of the buffered records and a history of one signal, which is returned with id signal_0 and no delta; the buffer is emptied and the window kept |
| Streaming.StreamingCoherence.Process | examples/data/framework/src/coherence.rs:401-443 | opens the first window at the record's timestamp if none is open; a contained record is buffered and None returned with the engine untouched; otherwise the window is finalized as FinalizeWindow states, the next window is one step later with the next id, and the buffer is exactly the triggering record; the k-th window invariant is kept |
| Scenarios.InterningOrder | examples/data/framework/src/coherence.rs:181-201 | after adding the edge X → Y to a fresh engine, interning X returns 0 and Y returns 1 |
| Scenarios.BasicGraph | examples/data/framework/src/coherence.rs:487-497 | nodes A and B with an edge of weight 1.0 give node count 2 and edge count 1 |
| Scenarios.SampleGraph | examples/data/framework/src/coherence.rs:500-513 | the three sample records register A, B and C and give the links A→B 1.0, A→C 0.5, B→C 1.0 |
| Scenarios.GraphFromRecords | examples/data/framework/src/coherence.rs:500-513 | computing from the sample records gives one signal with no delta, 3 nodes and 3 edges |
| Scenarios.NoEventsWithoutHistory | examples/data/framework/src/coherence.rs:516-523 | a fresh engine detects no events |
| Scenarios.RepeatedSignals | examples/data/framework/src/coherence.rs:232-255 | two measurements of an unchanged two-node graph have equal cuts; the second is signal_1 with delta 0 |
| Scenarios.SampleEvents | examples/data/framework/src/coherence.rs:327-354 | deltas none, +0.05, +0.2, −0.3 at threshold 0.1 give exactly Strengthened 0.2 followed by Weakened 0.3 |
| Scenarios.StreamRollover | examples/data/framework/src/coherence.rs:401-443 | under the default configuration, a record at 0 is buffered; a record at 604800 closes [0, 604800) with a one-node signal with infinite cut and no delta; the next window is [86400, 691200) with id 1 |

## Left out

- The two Utc::now() calls at coherence.rs:243 read a wall clock. They become two separate parameters, `clockStart` and `clockEnd`, of ComputeSignals, ComputeFromRecords, FinalizeWindow and Process. Nothing relates the two readings to each other, so the model does not assume they are equal or ordered.
- Timestamps are whole seconds (`int`). Sub-second chrono precision is not modelled, and neither is the overflow of adding a duration.
- `f64` rounding is not modelled: finite doubles are reals. The infinities and NaN are modelled as the `Float` constructors. Relationship weights and thresholds are finite reals, so a NaN weight passing the filter is not modelled.
- Integer widths (`u64` for `next_id`, `usize` for counts) are unbounded; wrap-around is not modelled.
- HashMap iteration order in find_cut_nodes is unspecified. Engine.SelectCutNodes picks the next key nondeterministically, and its contract holds for every order.
- Estimate.AverageDegree sums the degree table by walking the indices 0..next_id-1, not by iterating the map's values. The sum is the same, since every edge end is below next_id.
- The `Result` error path: compute_min_cut never fails. compute_signals, compute_from_records and the `.ok()?` in finalize_window are therefore modelled as total.
- Cloning: the history that compute_signals returns is a copy. The model returns the history's value.
- Serde derives, the event's `context` map, and the record fields the coherence code does not read (`source`, `record_type`, `data`, `embedding`, `rel_type`, `properties`) are not modelled.
- Config fields `epsilon`, `parallel` and `track_boundaries` are carried but read by no code.
- The `boundaries` list is only initialised and never populated, so there is no boundary logic. The model keeps the field and proves that Clear leaves it alone.
- The accessors `signals()` and `boundaries()` (coherence.rs:357-364) only return a field. The model reads the fields directly.
- `Default for CoherenceConfig` (coherence.rs:35-47) is the constant `Signals.DefaultConfig`.
