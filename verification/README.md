# dd_playground in Dafny

A model of the core of `dd_playground`, a small Python playground around the
MQT Core decision-diagram (DD) simulator. It models five parts:

- the DD simulation loop (`DDSimulator`);
- the dense NumPy state-vector reference simulator (`run_statevector`);
- the operator embedding `_embed_gate` that both of them use;
- the fidelity between two state vectors;
- the per-gate statistics records, and the two pandas helpers that merge the
  logs (`compare_logs`) and total the runtimes per circuit
  (`benchmark_circuits`).

Complex numbers are pairs of exact reals. Matrices are `seq<seq<Complex>>`.
The Kronecker product is defined by its entry formula.

The DD package is a foreign library. The model takes it as a parameter
`Engine<S>`. An engine is a record of functions: the zero state, applying a
unitary operation, node count, dense vector, and the optional `num_edges`
attribute. Runtimes and resident-set sizes are also inputs, one `Sample` per
operation.

Some behaviour of the code is worth knowing before reading the proofs:

- **Embedding.** `_embed_gate` sorts the targets and folds Kronecker products
  over the qubits 0..n-1.
  - Only the lowest target inserts U. The other targets only suppress an
    identity factor.
  - The result is I_(2^t0) ⊗ U ⊗ I_(2^(n-t0-k)), where t0 is the lowest target.
    This holds wherever the other targets are. For targets {0, 2}, U acts on
    qubits 0 and 1.
  - The model keeps this behaviour, in both copies of the function
    (`src/dd_playground/simulator.py` and
    `src/dd_playground/reference_comparison.py`).
- **Memory units.** The DD log divides the resident set size by 2^20
  (`collect_statistics`). The state-vector log divides it by 10^6. The two
  `ram_MB` and `peak_MB` columns are therefore in different units.
- **`psutil` is not really optional.** `DDSimulator.__init__` calls
  `psutil.Process()` unconditionally. The `psutil is None` branch of
  `collect_statistics` therefore cannot be reached from the simulator. The
  simulator model always takes a memory reading, while `CollectStatistics`
  still models both branches.
- **State-vector records.** A state-vector record reports `nodes` =
  `edges` = 2^n. Its `fidelity` field is a fixed text, not a number.

Module layout. `complex.dfy` holds two modules; every other file holds one:

| file | module | what it covers |
|---|---|---|
| `wrappers.dfy` | `Wrappers` | `Option` and `Result` |
| `complex.dfy` | `Complexes`, `Reals` | complex arithmetic; real-arithmetic facts |
| `arith.dfy` | `Arith` | powers of two; index splitting |
| `matrix.dfy` | `Matrices` | identity, Kronecker product, matrix-vector product |
| `sorting.dfy` | `Sorting` | `sorted()` on target lists |
| `embedding.dfy` | `Embedding` | `_embed_gate` |
| `fidelity.dfy` | `Fidelities` | `_fidelity`, `np.vdot`, Cauchy-Schwarz |
| `circuit.dfy` | `Circuits` | operations, circuits, dense reference evolution |
| `instrumentation.dfy` | `Instrumentation` | `Statistics`, `collect_statistics`, running peak |
| `simulator.dfy` | `Simulator` | `DDSimulator` and `run_circuit` |
| `reference_comparison.dfy` | `ReferenceComparison` | `run_statevector` |
| `comparison.dfy` | `Comparison` | `compare_logs` |
| `benchmark.dfy` | `Benchmarking` | `benchmark_circuits` |

## Model

| member | source | states |
|---|---|---|
| Matrices.KronAt | src/dd_playground/simulator.py:51-54 | `np.kron(A, B)` has \|A\|·\|B\| rows and Cols(A)·Cols(B) columns; entry (i, j) is A[i / p][j / q] · B[i % p][j % q], with the quotient and remainder indices in range |
| Sorting.Sort | src/dd_playground/simulator.py:43 | `sorted(targets)` is sorted and is a permutation of the input (same multiset) |
| Sorting.SortOrderIrrelevant | src/dd_playground/simulator.py:43 | two target lists with the same multiset of qubits sort to the same list |
| Embedding.BeforeSplice | src/dd_playground/simulator.py:48-54 | while no target has been met, every position below the lowest target adds an identity factor; the walk then splices U and continues as AfterSplice says |
| Embedding.AfterSplice | src/dd_playground/simulator.py:48-54 | once U is placed, the remaining increasing targets below n are skipped and every other position adds a 2×2 identity, so the fold ends in acc ⊗ I_(2^(positions left − targets skipped)) |
| Embedding.EmbedGateGeneral | src/dd_playground/simulator.py:41-55 | for ANY target list: the 2^n identity when no sorted target is below n; otherwise U spliced at the lowest target, swallowing exactly the run of strictly increasing targets below n |
| Embedding.EmbedGateCharacterization | src/dd_playground/simulator.py:48-54 | for distinct targets below n the result is I_(2^t0) ⊗ U ⊗ I_(2^(n−t0−k)), with t0 the lowest target and k the target count, and t0 + k ≤ n |
| Embedding.EmbedGateIgnoresUpperTargets | src/dd_playground/simulator.py:49-53 | two distinct target lists with the same size and the same lowest target give the same operator, wherever their other targets are |
| Embedding.NonAdjacentTargets | src/dd_playground/simulator.py:48-54 | on 3 qubits, targets [0, 2] give the same operator as [0, 1], namely U ⊗ I_2 |
| Embedding.EmbedGateOrderIrrelevant | src/dd_playground/simulator.py:43 | any permutation of the targets (e.g. descending order) gives the identical matrix |
| Embedding.EmbedGateNoTargets | src/dd_playground/simulator.py:45-55 | with no targets, or none below n, the fold from [[1]] yields the 2^n identity |
| Embedding.EmbedGateIdentity | src/dd_playground/simulator.py:41-55 | embedding the 2^k identity on k distinct targets below n yields the 2^n identity |
| Embedding.EmbedGateSquare | src/dd_playground/reference_comparison.py:19-33 | a 2^k×2^k gate on k distinct targets below n becomes a 2^n×2^n operator (the copy in the reference module is the same function) |
| Fidelities.InnerSelf | src/dd_playground/simulator.py:61-62 | `np.vdot(a, a)` is real and equals the sum of squared moduli the code reads as the norm |
| Fidelities.InnerSwap | src/dd_playground/simulator.py:65 | swapping the arguments of `vdot` conjugates it, so the overlap's modulus is symmetric |
| Fidelities.CauchySchwarz | src/dd_playground/simulator.py:60-66 | \|⟨a, b⟩\|² ≤ ‖a‖²·‖b‖² for any a of non-zero norm, the bound behind the documented range |
| Fidelities.Fidelity | src/dd_playground/simulator.py:59-66 | exactly 0 when either squared norm is 0; always within [0, 1] |
| Fidelities.FidelityInUnitInterval | src/dd_playground/simulator.py:60-66 | for non-zero norms the denominator is non-zero and the quotient lies in [0, 1] |
| Fidelities.FidelitySymmetric | src/dd_playground/simulator.py:59-66 | `_fidelity(a, b) == _fidelity(b, a)` |
| Fidelities.FidelitySelf | src/dd_playground/simulator.py:59-66 | a vector of non-zero norm has fidelity exactly 1 with itself |
| Fidelities.InnerScale | src/dd_playground/simulator.py:65 | `vdot(a, c·b)` = c·`vdot(a, b)`: the overlap is linear in its second vector |
| Fidelities.NormScale | src/dd_playground/simulator.py:60-61 | scaling a vector by c scales its squared norm by \|c\|² |
| Fidelities.FidelityPhaseRight | src/dd_playground/simulator.py:59-66 | a global phase (\|c\| = 1) on the second vector leaves the fidelity unchanged |
| Fidelities.FidelityGlobalPhase | src/dd_playground/simulator.py:59-66 | the fidelity is invariant under a global phase on either vector, so a state equal to the reference up to a phase is not penalised |
| Fidelities.FidelityOfMaximalOverlap | src/dd_playground/simulator.py:65-66 | when the overlap meets the Cauchy-Schwarz bound the fidelity is 1 |
| Instrumentation.CollectStatistics | src/dd_playground/instrumentation.py:30-49 | nodes is the state size; edges is `num_edges` when present, else 2·nodes; the gate label is passed through; runtime_ms is runtime_s × 1000; ram_MB is the resident set size over 2^20 with psutil and 0 without, never negative; peak_MB keeps its default 0.0 and fidelity its default None |
| Instrumentation.Max | src/dd_playground/simulator.py:110 | `max(a, b)` is at least both arguments and equals one of them |
| Instrumentation.Peak | src/dd_playground/simulator.py:110-111 | the running peak that starts at 0.0 is never negative |
| Instrumentation.PeakBounds | src/dd_playground/simulator.py:110-111 | the running peak bounds every reading, and is either the starting 0.0 or one of the readings |
| Instrumentation.PeakSnoc | src/dd_playground/simulator.py:110 | one more reading turns the peak p into max(p, reading) |
| Instrumentation.PeakMonotone | src/dd_playground/simulator.py:110 | the running peak never decreases as readings are added |
| Instrumentation.TrackedPeaksBound | src/dd_playground/simulator.py:110-112 | in a log whose peaks are tracked, each record's peak_MB ≥ its ram_MB and peak_MB is non-decreasing along the log |
| Instrumentation.PeaksTrackedAppend | src/dd_playground/simulator.py:110-112 | appending a record carrying max(peak, ram) keeps peaks tracked and makes it the new running peak |
| Circuits.BasisZero | src/dd_playground/simulator.py:82-84 | the initial vector has length d, amplitude 1 at index 0 and 0 elsewhere |
| Circuits.FullOperator | src/dd_playground/simulator.py:102-103 | the embedded operator of a well-formed unitary op is 2^n×2^n |
| Circuits.Step | src/dd_playground/reference_comparison.py:51-55 | one operation keeps the state length 2^n, and a non-unitary op leaves the vector unchanged |
| Circuits.Unitaries | src/dd_playground/reference_comparison.py:50-52 | the unitary operations in circuit order: every result is a unitary operation of the circuit, every unitary operation of the circuit is in the result, and there are no more than the circuit has |
| Circuits.UnitariesAppend | src/dd_playground/reference_comparison.py:50-52 | the filter keeps circuit order: the unitary operations of a + b are those of a followed by those of b |
| Circuits.EvolveSkipsNonUnitary | src/dd_playground/reference_comparison.py:50-55 | evolving by the unitary operations alone gives the same vector as evolving by all operations |
| Simulator.Init | src/dd_playground/simulator.py:72-84 | empty log, peak 0.0, the package's zero state; a reference vector exists iff NumPy is present and n ≤ 8, and then it is the basis vector e0 of length 2^n |
| Simulator.ApplySingleOp | src/dd_playground/simulator.py:86-113 | a non-unitary op changes nothing at all; a unitary op applies the package and appends exactly one record, keeping the earlier log; the record holds the new state's size and edge count, the gate label, the runtime in ms and the resident memory in MiB from the sample; the reference vector, when kept, advances by U_full, and the record's fidelity compares that new reference with the new state's vector (None without a reference); peak_ram becomes max(peak_ram, ram_MB) and is the record's peak_MB |
| Simulator.Run | src/dd_playground/simulator.py:115-126 | the log grows by exactly one record per unitary op and keeps its prefix; the reference vector's presence is kept |
| Simulator.RunState | src/dd_playground/simulator.py:88-113 | the final package state is the start state advanced by the unitary ops only, in circuit order |
| Simulator.RunReference | src/dd_playground/simulator.py:100-109 | the reference vector after the run is the start vector evolved by the embedded gates, i.e. the dense reference semantics |
| Simulator.InitConsistent | src/dd_playground/simulator.py:78-84 | a fresh simulator satisfies the bookkeeping invariant |
| Simulator.ApplySingleOpConsistent | src/dd_playground/simulator.py:96-113 | one step keeps the invariant: peak_ram is the peak of the logged ram_MB values, every record carries the peak up to itself, and a record has a fidelity in [0, 1] iff a reference vector is kept |
| Simulator.RunConsistent | src/dd_playground/simulator.py:115-124 | the whole loop keeps that invariant |
| Simulator.RunRecords | src/dd_playground/simulator.py:96-126 | record i of the new log is the i-th unitary operation's record: it describes the package state after the first i + 1 unitary operations, carries that operation's sample, and its fidelity compares that state with the start reference evolved densely by the same i + 1 operations |
| Simulator.RunLastRecord | src/dd_playground/simulator.py:100-112 | when the last operation is unitary, the last record describes the state after all unitary operations and compares it with the fully evolved reference |
| Simulator.RunCircuit | src/dd_playground/simulator.py:129-139 | `run_circuit` returns one record per unitary operation |
| Simulator.RunCircuitRecord | src/dd_playground/simulator.py:72-139 | `run_circuit`'s record i describes the state after the first i + 1 unitary operations from the zero state; its fidelity compares it with e0 evolved densely by the same operations exactly when NumPy is present and n ≤ 8, and is None otherwise |
| Simulator.RunCircuitProperties | src/dd_playground/simulator.py:72-126 | for a fresh simulator: final state, bookkeeping invariant, reference vector iff NumPy and n ≤ 8, equal to the dense evolution of e0 |
| ReferenceComparison.Megabytes | src/dd_playground/reference_comparison.py:58 | the memory reading in 10^6-byte units is never negative |
| ReferenceComparison.SvEntry | src/dd_playground/reference_comparison.py:58-70 | the record is the one written for the operation and sample: name, runtime, nodes = edges = 2^n, ram = rss / 10^6, the fixed fidelity note, and peak max(previous peak, ram), which is at least both |
| ReferenceComparison.SvLog | src/dd_playground/reference_comparison.py:50-70 | one record per unitary operation |
| ReferenceComparison.SvLogMatches | src/dd_playground/reference_comparison.py:50-70 | record i belongs to the i-th unitary op and its sample: name, runtime, nodes = edges = 2^n, ram = rss / 10^6, the fixed fidelity note, and a peak equal to the running maximum of ram up to and including it |
| ReferenceComparison.RecordsMatchAppend | src/dd_playground/reference_comparison.py:58-70 | appending the next record with max(peak, ram) keeps the log matching and advances the running peak |
| ReferenceComparison.SvPeaksMonotone | src/dd_playground/reference_comparison.py:58-67 | in a state-vector log every peak_MB is at least its own ram_MB and the peaks never decrease along the log |
| ReferenceComparison.RunStatevector | src/dd_playground/reference_comparison.py:36-71 | fails with the budget error iff n > 8; otherwise returns the dense evolution of e0 by the embedded unitaries, and a log of one matching record per unitary op |
| Comparison.StatsRow | src/dd_playground/comparison.py:53 | a DD record's row has runtime_ms and no runtime_s |
| Comparison.SvRow | src/dd_playground/comparison.py:57 | a state-vector record's row has runtime_s and no runtime_ms |
| Comparison.Milliseconds | src/dd_playground/comparison.py:59 | multiplying by 1000.0 keeps missing values missing and is undone by dividing by 1000 |
| Comparison.ToMillis | src/dd_playground/comparison.py:58-60 | the row loses runtime_s and gains runtime_ms (its seconds × 1000, or missing); every other column is unchanged |
| Comparison.Tag | src/dd_playground/comparison.py:54-62 | each row gets the implementation tag and its position in its own log; every other column is unchanged |
| Comparison.CompareLogs | src/dd_playground/comparison.py:47-64 | fails iff some state-vector row holds text in runtime_s; otherwise has len(log_dd) + len(log_sv) rows |
| Comparison.CompareLogsDecisionDiagramRows | src/dd_playground/comparison.py:53-55 | the first len(log_dd) rows are the DD rows in order, tagged "DecisionDiagram", indexed 0.., otherwise untouched |
| Comparison.CompareLogsStateVectorRows | src/dd_playground/comparison.py:57-64 | the remaining rows are the state-vector rows in order, tagged "StateVector", indexed from 0; with a runtime_s column every row trades it for runtime_ms, otherwise the rows are untouched |
| Comparison.SecondsConverted | src/dd_playground/comparison.py:58-60 | rows that all hold numeric seconds come out with seconds × 1000 in runtime_ms and no runtime_s |
| Comparison.MergedSimulatorLogs | src/dd_playground/comparison.py:47-64 | merging the two simulators' own logs always succeeds, and every merged row carries runtime_ms: the DD value as logged, the state-vector value as seconds × 1000 |
| Benchmarking.Block | src/dd_playground/comparison.py:23-32 | a circuit contributes its DD row first, and a second row iff its reference run succeeded |
| Benchmarking.Benchmark | src/dd_playground/comparison.py:16-34 | between \|circuits\| and 2·\|circuits\| rows |
| Benchmarking.BenchmarkLength | src/dd_playground/comparison.py:21-34 | exactly one row per circuit plus one per successful reference run |
| Benchmarking.BenchmarkAppend | src/dd_playground/comparison.py:21-32 | circuits are processed independently: the rows of a + b are the rows of a followed by those of b |
| Benchmarking.BenchmarkBlocks | src/dd_playground/comparison.py:21-32 | circuit i's rows sit between those of the circuits before and after it |
| Benchmarking.FailureSkipsOnlyItsRow | src/dd_playground/comparison.py:27-32 | the SV row directly follows its circuit's DD row, and a failure of that reference run removes exactly that row, keeping all others in order |
| Benchmarking.BenchmarkDecisionDiagramRows | src/dd_playground/comparison.py:23-25 | the DD rows are one per circuit, in circuit order, each with that circuit's total |
| Benchmarking.BenchmarkStateVectorRows | src/dd_playground/comparison.py:27-32 | the state-vector rows are those of the successful reference runs, in circuit order |
| Benchmarking.SvTotalInSeconds | src/dd_playground/comparison.py:31 | summing seconds × 1000 equals the total seconds × 1000 |
| Benchmarking.DdTotalAppend | src/dd_playground/comparison.py:24 | the DD runtime total is additive over concatenated logs |
| Benchmarking.OutcomeOf | src/dd_playground/comparison.py:23-30 | a circuit's reference run yields a log iff it has at most 8 qubits |
| Benchmarking.RunJob | src/dd_playground/comparison.py:22-32 | running both simulators on one circuit gives that circuit's block of rows |
| Benchmarking.BenchmarkCircuits | src/dd_playground/comparison.py:16-34 | the rows are the blocks of all circuits in order, from \|circuits\| to 2·\|circuits\| of them |

## Left out

- File loading (`utils.load_qasm`, `QuantumComputation.from_qasm`) is not modelled: circuits are given as values, so parse errors are not modelled either.
- The DD package internals (`DDPackage`, `apply_unitary_operation`, `get_vector`, `size`, `num_edges`) are the function fields of `Engine`. `garbage_collect` is left out because it has no effect the simulator can observe.
- `_gate_matrix` is a call into the package. Each operation carries its dense matrix in `Op.gate`, and `WellFormedOp` assumes the matrix is 2^k×2^k.
- Circuits.WellFormedOp: a unitary operation must have a 2^k×2^k matrix and distinct targets below n. `Step`, `Evolve` and both simulators require this of every operation. That includes the paths where the code never embeds a gate: `DDSimulator` without a reference vector (no NumPy, or n > 8), and `run_statevector` for n > 8, which raises before reading any operation. Circuits with other operations are not modelled on any path. The code does not always fail on them:
  - When the lowest target is below n, repeated targets or a further target ≥ n give `U_full` the wrong shape, and `U_full @ ref_vec` raises.
  - When every target is ≥ n, `_embed_gate` returns the 2^n identity (`Embedding.EmbedGateNoTargets`). The product then succeeds and the gate is silently ignored by the reference.
- `time.perf_counter` and psutil's memory reading are inputs (`Sample`).
- IEEE floating point is left out: all arithmetic is on exact reals, and `float(...)` is the identity. The Bell-state numeric check and the tolerances are out of scope.
- `plot_runtime_bars` and `plot_node_bars` are matplotlib output.
- pandas mechanics beyond "a sequence of rows" are left out: column dtypes, column order, `pivot`, and the index. A column missing from a row stands for NaN, `Null` stands for None/NaN, and the only failure modelled is the `TypeError` of multiplying text by 1000.0.
- `install_playground_hook` registers a foreign callback.
- `DDSimulator.run` raises a `RuntimeError` when mqt is missing. That environment check is left out.
- `__init__.py` only re-exports names.
- Norm preservation under the embedded gates is not modelled, because the code never checks that U is unitary.
- Simulator.ApplySingleOp: always takes a memory reading. `DDSimulator.__init__` would already fail without psutil, so the `ram_MB = 0.0` branch is only modelled in `CollectStatistics`.
- Simulator.ApplySingleOp: requires every package vector to have 2^n entries (`VectorsSized`). `np.vdot` raises on vectors of different lengths, and that error path is not modelled.
- Benchmarking.BenchmarkCircuits: the only reference failure modelled is the 8-qubit budget. The code's `except Exception` also swallows any other error of `run_statevector`. An error in the DD run aborts the batch, and that path is not modelled.
- Comparison.CompareLogs: pandas behaviour that depends on dtypes, such as a runtime_s column holding only None values, is not modelled.
