# Scheduling core of the ogg-impala data loader

`ImpalaDataLoader` is the driver of a change-data-capture loader: it picks its
properties file from the command line, and then loops forever. Each cycle reads
the clock, asks the source control file for a control file to process, runs a
batch (`start`, then `clean`) when one is handed over, and busy-waits until the
configured number of milliseconds between batches has passed since the start of
the cycle, giving up early with a warning when the elapsed time is above a fixed
ceiling of ten minutes (`MAX_MS_BETWEEN_BATCHES`, 600000 ms).

This project models those three rules in Dafny:

- `batch_wait.dfy` (module `BatchWait`): the wait. The wall clock becomes the
  sequence of readings `System.currentTimeMillis()` would return. The method
  `WaitForNextBatch` keeps the Java loop and is proved equal to the
  specification function `WaitSpec`. The lemmas state when it returns normally,
  when it warns, and when it must end.
- `scheduler.dfy` (module `Scheduler`): one cycle of the loop (`RunIteration`)
  and a run of as many cycles as the given poll results and clock readings
  allow (`Run`). Each produces a trace of events: `Poll`, `Start`, `Clean` and
  `Wait`. Both methods are proved equal to specification functions
  (`IterationTrace`, and `RunSpec`, which lists the cycles of a run and joins
  their traces). The lemmas give the shape of a cycle's trace and of a run's
  trace.
- `loader_args.dfy` (module `LoaderArgs`): the choice of the properties file.
- `refs.dfy` (module `Refs`): Java references that may be `null`.

A wait that runs out of readings before either exit reports `StillWaiting`: the
real loop would still be spinning at that point. The readings are not required
to be ordered. `WaitEnds` shows that the wait has ended by any reading whose
elapsed time reaches the interval or passes the ceiling, whatever came before,
and `FirstStop` that it stops exactly at the first such reading.

The ceiling test sits inside the loop that runs only while the interval has not
elapsed. So a cycle whose poll and batch already took longer than both the
interval and the ceiling gets no warning: the first reading ends the wait
normally (`ImmediateReturn`). The warning can only be raised when the configured
interval is above 600001 ms (`WarningNeedsLongInterval`). It then caps that
interval at ten minutes. The constant's comment calls it the maximum time
between batches; the code enforces it only while the configured interval has
not elapsed (lines 79-80).

## Model

| member | source | states |
|---|---|---|
| `BatchWait.WaitFrom` | src/main/java/ch/cern/impala/ogg/datapump/ImpalaDataLoader.java:76-88 | the wait never uses more readings than it is given; it uses at least one when it returns, and all of them when it is still waiting |
| `BatchWait.WaitForNextBatch` | src/main/java/ch/cern/impala/ogg/datapump/ImpalaDataLoader.java:76-89 | the loop over clock readings returns the outcome and the number of readings that `WaitSpec` gives |
| `BatchWait.ImmediateReturn` | src/main/java/ch/cern/impala/ogg/datapump/ImpalaDataLoader.java:77-79 | if the first reading already shows the interval elapsed, the wait returns normally after that one reading with no warning, even when the ceiling is passed too |
| `BatchWait.NormalReturn` | src/main/java/ch/cern/impala/ogg/datapump/ImpalaDataLoader.java:79-88 | a return without warning means the last reading shows the interval elapsed, and every earlier reading was below the interval and not above the ceiling |
| `BatchWait.WarnedReturn` | src/main/java/ch/cern/impala/ogg/datapump/ImpalaDataLoader.java:79-85 | a warned return means the last reading is above 600000 ms and below the interval, and every earlier reading kept the loop going; the call ends at that reading, so it warns at most once |
| `BatchWait.WarningNeedsLongInterval` | src/main/java/ch/cern/impala/ogg/datapump/ImpalaDataLoader.java:79-80 | a warning implies an interval above 600001 ms, so with an interval of at most ten minutes no clock readings can make the loop warn |
| `BatchWait.WaitEnds` | src/main/java/ch/cern/impala/ogg/datapump/ImpalaDataLoader.java:79-88 | if reading k shows an elapsed time of at least min(interval, 600001), the wait has ended by reading k, with or without warning |
| `BatchWait.FirstStop` | src/main/java/ch/cern/impala/ogg/datapump/ImpalaDataLoader.java:77-88 | when every reading before reading k keeps the loop going and reading k does not, the wait uses exactly k+1 readings and returns normally if reading k reaches the interval, with the warning otherwise |
| `Scheduler.RunIteration` | src/main/java/ch/cern/impala/ogg/datapump/ImpalaDataLoader.java:56-73 | one cycle emits the events of `IterationTrace`: a poll, a batch start and clean when a control file was returned, and a wait measured from the cycle's start time with the outcome of `WaitSpec` |
| `Scheduler.IterationShape` | src/main/java/ch/cern/impala/ogg/datapump/ImpalaDataLoader.java:57-72 | a cycle polls first and exactly once, and ends with exactly one wait from its own start time; it runs `start` and then `clean` once each on the polled control file iff the poll returned one, and neither otherwise |
| `Scheduler.Run` | src/main/java/ch/cern/impala/ogg/datapump/ImpalaDataLoader.java:56-73 | the loop emits the events of `RunSpec`: cycle after cycle, each wait consuming the readings after the cycle's start reading, until the poll results or the readings run out |
| `Scheduler.RunShape` | src/main/java/ch/cern/impala/ogg/datapump/ImpalaDataLoader.java:56-73 | over a run there are as many waits as polls; there are as many starts and as many cleans as polls that returned a control file; and every start is directly followed by the clean of the same control file |
| `LoaderArgs.PropertiesFile` | src/main/java/ch/cern/impala/ogg/datapump/ImpalaDataLoader.java:28-29 | the properties file is the only argument when the argument array is non-null, has length 1 and its element is non-null; otherwise it is the default file |

## Left out

- Loading the properties (`PropertiesE`), the Impala client, the Oracle metadata fetch and the creation of the target table (lines 30-44): foreign clients whose code is not part of this model. The default properties file name lives in `PropertiesE`, so it is a parameter of `PropertiesFile`.
- Hadoop `Configuration` and `FileSystem` setup and the staging directory (lines 47-53): library I/O.
- What `Batch.start`, `Batch.clean` and `ControlFile.getControlFileToProcess` do: their classes are not part of this model. They appear only as events, and the poll result is an input.
- The real wall clock and the busy spin: replaced by a finite sequence of readings. A wait that the readings do not carry to its end reports `StillWaiting`.
- The 64-bit `long` arithmetic of `currentTimeMillis() - startTime`: clock readings are unbounded integers. Wrap-around would need readings about 2^63 ms apart.
- Log messages: their text and the `info` lines. The one warning appears as the `Warned` outcome.
- The endless `while(true)`: `Run` performs as many cycles as the given poll results and clock readings allow.
- Exceptions thrown by the batch or the poll: `main` declares `throws Exception` and lets them end the process, and their sources are not part of this model.
