# cpu-monitor, modelled in Dafny

A model of the decision logic of a small Go console monitor. Each report cycle, the monitor
reads the host's CPU and memory use and the process table. It prints up to five processes with a
CPU share above zero, highest first, and raises an alert when CPU or memory use crosses a threshold. At
start-up it also writes those top processes to a CSV file, with memory sizes in MB or GB.

The model covers three pieces of `main.go`:

- **The ranker** (`getTopProcess`). This is most of the model. The operating system's process
  table becomes an input sequence of `ProcessInfo` records.
  - `Ranker.CollectBusy` is the collecting loop. It keeps, in table order, every record whose
    CPU share is above zero.
  - `Ranker.SortByCpu` sorts an array of records in place, highest CPU share first, comparing
    CPU shares only. It stands for the library sort call.
  - `Ranker.GetTopProcess` chains the two and cuts the result after `TopCount` (5) entries.
  - `Ranker.IsTopByCpu` states everything the ranker promises. The lemmas in `RankerProperties`
    draw consequences from it. One of them is that this contract fixes the CPU share at every
    position of the result. Only the order among equal CPU shares is left open, since the
    library sort is not stable.
- **The memory unit** of `formatMemory`. A size is written in GB from 1024^3 bytes on, and in
  MB below that.
- **The two alerts** of the report loop. The CPU alert fires above 80 percent and the memory
  alert above 85 percent, each on its own reading.

Files: `processes.dfy` (the record and the Go integer widths), `ranker.dfy` (the ranker),
`ranker_properties.dfy` (lemmas about the ranker's contract), `report.dfy` (memory unit and
alerts).

CPU shares are `real`. The ranker only compares them, so their float64 representation does
not matter to it. PIDs and memory sizes keep their Go widths (`int32`, `uint64`) as newtypes.

## Model

| member | source | states |
|---|---|---|
| Ranker.CollectBusy | main.go:42-55 | the loop's list is exactly `Positive(procs)`: the input records with CPU above zero, in input order, fields unchanged |
| Ranker.PositiveKeepsExactlyTheBusy | main.go:47-54 | each record with CPU above zero occurs in the filtered list exactly as often as in the input; every other record occurs there zero times |
| Ranker.PositiveIsBusySubmultiset | main.go:47-54 | every kept record has CPU above zero; the kept list is a sub-multiset of the input; every input record with CPU above zero is kept |
| Ranker.IndexOfMaxCpu | main.go:58-60 | returns an index in `a[lo..]` whose CPU share is no smaller than any other in that range |
| Ranker.Swap | main.go:58-60 | exchanges two entries, leaves the rest alone, keeps the array's multiset |
| Ranker.SortByCpu | main.go:57-60 | afterwards the array is non-increasing by CPU share and a permutation of what it held; no memory tie-break |
| Ranker.TruncatedSortedIsTop | main.go:62-66 | cutting a sorted list after k entries drops nothing with a higher CPU share than any kept entry, and the kept and dropped parts together are the whole list |
| Ranker.PrefixOfSortedPoolIsTop | main.go:58-66 | the first min(5, n) entries of a sorted arrangement of the busy records are busy, sorted, a sub-multiset of them, and outrank everything dropped |
| Ranker.GetTopProcess | main.go:38-67 | `IsTopByCpu`: min(5, number of busy records) entries, each with CPU above zero, non-increasing by CPU, a sub-multiset of the busy input records, and no busy record left out has a higher CPU share than a kept one |
| RankerProperties.TopByCpuOnInput | main.go:47-66 | in terms of the raw input: at most 5 entries; a sub-multiset of the input; with 5 or fewer busy records the result is a permutation of exactly those; no busy input record left out outranks a kept one |
| RankerProperties.TopKeepsAllAbove | main.go:58-64 | once the result holds an entry below t, it holds every busy record of at least t, as often as the input does |
| RankerProperties.AtLeastOfSorted | main.go:58-60 | in a list sorted by CPU, position i holds at least t exactly when more than i entries do |
| RankerProperties.TopCountsDominate | main.go:58-64 | unless every entry of b reaches t, one valid result never holds more entries of at least t than another valid result b for the same input |
| RankerProperties.KeyAtMost | main.go:58-64 | two valid results for the same input: position i of one has no more CPU than position i of the other |
| RankerProperties.TopKeysDetermined | main.go:42-66 | any two valid results for the same input have the same length and the same CPU share at every position; only ties may be ordered differently |
| RankerProperties.TopUniqueWhenSharesDistinct | main.go:42-66 | when no two busy records share a CPU value, there is exactly one valid result |
| RankerProperties.ExampleTopIsTop | main.go:42-66 | for PIDs 1, 2, 3, 4 with CPU 50, 0, 90, 10, the list PIDs 3, 1, 4 meets the ranker's contract |
| RankerProperties.RankerExample | main.go:42-66 | for that table, the only valid result is PIDs 3, 1, 4 in that order |
| Report.UnitFor | main.go:128-136 | the size in the chosen unit, before two-decimal rounding, is at least 1 when in GB and below 1024 when in MB |
| Report.UnitFromMagnitude | main.go:132-135 | those two facts determine the unit, and the unit is GB exactly when the size is at least 1024^3 bytes |
| Report.UnitExamples | main.go:128-136 | 2147483648 bytes (2 GiB) are shown in GB; 5242880 bytes (5 MiB) in MB |
| Report.Alerts | main.go:80-85 | the CPU alert is printed iff the CPU reading exceeds 80; the memory alert iff used memory exceeds 85 percent; CPU alert first; no alert twice |
| Report.AlertLines | main.go:80-85 | the printed alert lines are, in order, the message of each alert `Alerts` reports: "ALERTA: Uso da CPU acima de 80%!" and "ALERTA: Uso da memória acima de 85%!" |
| Report.AlertsIndependent | main.go:80-85 | whether one alert fires does not depend on the other reading |
| Report.AlertExamples | main.go:80-82 | a CPU reading of 85.5 raises the CPU alert and 79.9 does not |

## Left out

- `clearScreen` (main.go:25-36) runs an external terminal command. That is I/O, so it is not modelled.
- The calls into the process and system metrics library (main.go:39-45, 73-75) are not modelled.
  Their results are inputs, with their errors already discarded as the source discards them. The
  model cannot see the possibly missing memory record read at main.go:52 or an empty CPU reading
  list indexed at main.go:77.
- The rest of the report loop (main.go:69-95) is not modelled. That means the screen clearing,
  the printing, the per-process line that always shows memory in MB, and the 10-second sleep.
  The loop keeps no state between cycles.
- `reportsCSV` (main.go:98-126) and `main` (main.go:138-146) are file output and wiring. The
  CSV memory column uses `formatMemory`, whose unit choice is `Report.UnitFor`.
- Two-decimal float rendering and the float division by 1024^2 or 1024^3 are not modelled. Only
  the integer threshold that picks the unit is.
- Report.UnitFor: bounds the exact size in the chosen unit, not the printed text. Rounding to two
  decimals prints "1024.00 MB" for sizes from 1073736582 bytes up to 1 GiB - 1.
- CPU shares and the alert readings (`cpuUsage[0]` and `UsedPercent`, main.go:80, 83) are float64
  in Go and exact reals here, so a NaN reading cannot occur in the model. In Go, the `> 0` test
  drops a NaN CPU share, and a NaN reading raises no alert because `>` is false for NaN.
- Ranker.SortByCpu: the library sort is a pattern-defeating quicksort. The model uses a selection
  sort with the same comparator and states only what the source relies on: sorted by CPU and a
  permutation. Which of several equal-CPU records the Go sort puts first is not modelled.
- Go slice sharing is not modelled. The cut result `processList[:5]` aliases the sorted slice's
  backing array; the model works on sequence values.
