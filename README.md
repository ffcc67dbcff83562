# Energy splitting and the Tracy job queue, modelled in Dafny

This project models two parts of OpenSTF, a short-term forecasting
service, and proves properties of the model.

**Energy splitting** (`openstf/model/split_energy.py`). A load series is
split into wind, solar and standard-usage components by fitting weights to
reference profiles. The model covers everything around the least-squares
solver:
- the initial guess `p0`;
- the weighted sum with its length check;
- the signed noise clamp `coefs[coefs < 0.1] = 0`;
- the reconstruction of the estimate, baseline and component columns;
- the coefficient dict, named by the input columns;
- the MAE that is added to that dict;
- the conversion of the dict to the frame stored in SQL;
- the validator that compares new coefficients against the historical mean;
- the `split_energy` orchestration: persist if accepted, or alert and fall
  back to the last stored coefficients.

**Tracy job queue** (`openstf/tasks/run_tracy.py`). Jobs with `inprogress`
0 are fetched from the `todolist` table and processed in order. Each job
goes through these steps:
1. It is marked `inprogress = 1` and written back.
2. Its function name is looked up in a fixed alias table.
3. A known job runs its handler. If the handler raises, the job is marked
   `inprogress = 2` and written back, and an exception report is posted to
   Teams.
4. A known job is then reported as processed and deleted, whatever the
   handler did.

An unknown job hits `continue`. It is left at `inprogress = 1`, with no
post and no delete.

Modules, one per file:
- `Wrappers`: `Option` and `Result`.
- `OrderedDict`: an insertion-ordered Python dict of reals.
- `Numeric`: `Abs`, `Sum`, maximum and minimum.
- `CoefValidator`: `are_new_coefs_valid`.
- `CoefFormatter`: `convert_coefdict_to_coefsdf`.
- `ComponentSplitter`: `find_components`.
- `SplitOrchestrator`: `split_energy`.
- `RunTracy`: `run_tracy`.

The core is modelled in the same form as the source:
- The validator loop, the formatter's column loop, the in-place clamp on an
  `array`, `find_components`, `split_energy` and the Tracy job loop are
  methods.
- Each method is proved equal to a specification function.
- The properties are proved about those functions as lemmas.

How the environment is represented:
- **Solver.** `curve_fit` is a function parameter `fit`. It returns `None`
  when the solver raises.
- **Clock.** The two readings of `datetime.utcnow()` are parameters.
- **Timestamps.** Timestamps are integer seconds. `.date()` is the day
  number `t / 86400`.
- **Database and Teams.** The database answers are an input value, and the
  calls the code makes are returned as a trace. In `run_tracy`, the
  `todolist` table is a sequence of rows with distinct ids (the primary
  key). The updates, deletes and posts are a trace. Applying the trace to
  the table gives the table after the run.
- **Tracy handlers.** `parse` stands for `int(job["args"])` (`None` when it
  raises). `handler` says, for the job's id (the primary key), its kind and
  its pid, whether fetching the prediction job and running the task
  completed without an exception. Two jobs of the same kind and pid can therefore fare
  differently.

Where the code and its documentation disagree, the model follows the code:
- **Residual sign.** The residual column is `load - estimate`. `diff(axis=1)`
  of `[load, Inschatting]` is `Inschatting - load`, and line 186 negates it.
- **Negative weights.** The clamp is a signed `< 0.1`. With `zero_bound` off,
  negative weights also become 0.
- **MAE.** `"MAE"` is added to the coefficient dict before validation and
  formatting. It is therefore validated against the historical mean `MAE`,
  when there is one, and stored as a row of the frame.
- **Empty input.** An input with no rows gives `FitFailed` from the split.
  pandas' `max`/`min` give NaN on an empty series, and `curve_fit` rejects
  empty data.
- **The load column by name.** `components` keeps the input's first column
  under the input's own name (line 180), and line 44 selects it as `"load"`.
  An input whose first column has another name makes `split_energy` raise
  KeyError at line 44, after the two reads. The model returns
  `MissingLoadColumn` there.
- **Failed Tracy jobs.** Such a job is still reported as "Succesfully
  processed" and deleted.

## Model

| member | source | states |
|---|---|---|
| CoefValidator.WithinDrift | openstf/model/split_energy.py:87-88 | a key passes iff its drift is at most 0.3 times the absolute mean; both exact boundaries pass because the test is a strict `>`; a zero mean admits only an equal new value |
| CoefValidator.AreNewCoefsValid | openstf/model/split_energy.py:73-90 | the loop over the mean keys, in order, with early returns, yields the verdict: the first missing key raises KeyError, the first drifting key gives false, otherwise true |
| CoefValidator.BootstrapAccepts | openstf/model/split_energy.py:85-90 | an empty mean map accepts any new coefficients |
| CoefValidator.AcceptedIffNoKeyDrifts | openstf/model/split_energy.py:83-90 | when every mean key is present in the new map, the verdict is no error, and it is true iff every mean key is within drift (both directions) |
| CoefValidator.MissingKeyRaises | openstf/model/split_energy.py:86-87 | a KeyError always names a mean key absent from the new map; a missing key with no drifting key raises |
| CoefValidator.OnlyMeanKeysMatter | openstf/model/split_energy.py:86 | two new maps that agree on the mean keys get the same verdict, so keys only in the new map are ignored |
| CoefValidator.BoundaryExample | openstf/model/split_energy.py:88 | mean 10 with new value 13 is valid; 13.01 is not |
| CoefFormatter.DayOf | openstf/model/split_energy.py:109-110 | the day of a timestamp is the day whose 86400-second span contains it |
| CoefFormatter.IndexRange | openstf/model/split_energy.py:109-110 | the index's minimum and maximum are instants of the index, and every instant lies between them |
| CoefFormatter.SqlColumnsSpanIndex | openstf/model/split_energy.py:106-112 | the metadata values are the pid, a `date_start` and a `date_end` that are days of instants of the index with every instant's day between them, and the creation time |
| CoefFormatter.CoefsFrame | openstf/model/split_energy.py:106-117 | the columns are coef_name, coef_value, pid, date_start, date_end, created, and there is one row per dict entry |
| CoefFormatter.CoefsFrameRow | openstf/model/split_energy.py:113-117 | row j holds the name and value of the dict's j-th entry, in the dict's order, followed by the four metadata values |
| CoefFormatter.ConvertCoefdictToCoefsdf | openstf/model/split_energy.py:93-119 | on a non-empty index, the column-adding loop yields that frame |
| ComponentSplitter.WeightedSum | openstf/model/split_energy.py:137-141 | it raises iff the number of weights differs from the number of reference profiles; otherwise each sample is the dot product of that row with the weights |
| ComponentSplitter.DotFirstTwo | openstf/model/split_energy.py:141 | a dot product splits into the wind term, the solar term and the dot product of the remaining profiles |
| ComponentSplitter.InitialGuess | openstf/model/split_energy.py:148-153 | `p0` has one entry per non-load column; the first two are 1.0; every later one is (max load - min load) / 10; all are non-negative |
| ComponentSplitter.Clamped | openstf/model/split_energy.py:172-173 | every weight below 0.1, negative ones included, becomes exactly 0; every other weight is unchanged; every result is 0 or at least 0.1 |
| ComponentSplitter.ClampedIdempotent | openstf/model/split_energy.py:173 | clamping twice is the same as clamping once |
| ComponentSplitter.ClampNoise | openstf/model/split_energy.py:173 | the in-place clamp of the weight array leaves the clamped weights |
| ComponentSplitter.ReconstructValue | openstf/model/split_energy.py:176-186 | reconstruction succeeds iff there is one weight per profile, and the estimate and baseline are the weighted sums with the weights and with `p0` |
| ComponentSplitter.ComponentsAddUp | openstf/model/split_energy.py:180-186 | the load column is the input's first column, with its name and values; wind = wind profile x weight 0; solar = PV profile x weight 1; estimate = wind + solar + standard usage at every timestamp; residual = load - estimate |
| ComponentSplitter.SplitUsesClampedWeights | openstf/model/split_energy.py:163-176 | a successful split is the reconstruction under the solver's weights after the clamp, and every weight in the dict is 0 or at least 0.1 |
| ComponentSplitter.ReconstructCoefdict | openstf/model/split_energy.py:189 | with distinct column names, the dict's keys are the non-load columns in order, each mapped to its weight |
| ComponentSplitter.ReconstructDict | openstf/model/split_energy.py:176-189 | a successful reconstruction has one weight per non-load column, and its dict is the comprehension over the zip of those columns with the weights |
| ComponentSplitter.ColumnsAfterLoad | openstf/model/split_energy.py:189 | zipping distinct columns after the first with one value each gives a dict with those columns as keys, in order, column i + 1 holding value i |
| ComponentSplitter.SplitShape | openstf/model/split_energy.py:143-186 | a successful split has a non-empty index, its first column carries the input's first column name, and the load and estimate columns have one entry per timestamp |
| ComponentSplitter.FindComponents | openstf/model/split_energy.py:122-192 | fewer than 3 columns, an empty table or a raising solver fail; otherwise the result is the reconstruction under the clamped weights |
| OrderedDict.Ordered.Get | openstf/model/split_energy.py:87 | lookup fails exactly for an absent key and otherwise returns its value |
| OrderedDict.Ordered.Put | openstf/model/split_energy.py:46 | after `update`, the key maps to the new value; an existing key keeps its place and a new one goes last; every other key is unchanged |
| OrderedDict.FromEntriesOrder | openstf/model/split_energy.py:189 | a comprehension over entries with distinct names has one key per entry, the names in entry order |
| OrderedDict.FromEntriesStored | openstf/model/split_energy.py:189 | a comprehension over entries with distinct names stores each entry's value under its name |
| OrderedDict.FromEntriesDistinct | openstf/model/split_energy.py:189 | an ordered dict built from entries with distinct names has those names in order, each with its value |
| OrderedDict.ZipDistinct | openstf/model/split_energy.py:189 | `dict(zip(names, values))` with distinct names and as many values has the names as keys, in order, each with its own value |
| OrderedDict.FromEntriesValues | openstf/model/split_energy.py:189 | every value in the comprehension's dict comes from an entry with that name |
| SplitOrchestrator.MeanAbsoluteErrorZero | openstf/model/split_energy.py:44-45 | the MAE is non-negative, and it is zero iff the estimate equals the load |
| SplitOrchestrator.WithMae | openstf/model/split_energy.py:46 | the dict gains "MAE" with the error and keeps every fitted weight |
| SplitOrchestrator.SplitUsable | openstf/model/split_energy.py:40-47 | a successful split of a well-shaped input has a non-empty index, an estimate as long as the load and a valid dict, as the MAE and the formatter need |
| SplitOrchestrator.Settle | openstf/model/split_energy.py:47-70 | formatting, fetching the means, validating and then alerting and falling back or writing return the specified result and make the specified calls |
| SplitOrchestrator.Proceed | openstf/model/split_energy.py:40-70 | a failed split, or components without a `load` column, stop with no further call; otherwise the MAE is added to the dict and the run settles as specified |
| SplitOrchestrator.SplitEnergy | openstf/model/split_energy.py:18-70 | the step-by-step run returns the result of the specification, and makes the same sequence of database and Teams calls |
| SplitOrchestrator.DecideAccepts | openstf/model/split_energy.py:50-70 | an accepted verdict returns the candidate; the calls are the three reads and then the write of the candidate, with one write and no alert |
| SplitOrchestrator.DecideRejects | openstf/model/split_energy.py:50-65 | a rejected verdict returns the fallback; the calls are the three reads, the alert carrying the candidate and the fetch of the last coefficients, with no write and one alert |
| SplitOrchestrator.AcceptedRunWrites | openstf/model/split_energy.py:67-70 | when the load column is named `load` and the candidate is accepted, the candidate frame is returned; the whole trace is the three reads followed by the one write of that frame, and there is no alert |
| SplitOrchestrator.RejectedRunAlerts | openstf/model/split_energy.py:51-65 | when the load column is named `load` and the candidate is rejected, the result is the last stored coefficients formatted; the whole trace is the three reads, one alert carrying the candidate frame and the fetch of the last coefficients, with no write |
| SplitOrchestrator.WritesIffAccepted | openstf/model/split_energy.py:40-70 | there is one write if the split succeeds, the load column is named `load` and validation accepts, and none otherwise |
| SplitOrchestrator.UnnamedLoadStops | openstf/model/split_energy.py:40-44 | a split whose input's first column is not named `load` ends with a KeyError at the MAE after the two reads, with nothing validated, written or posted |
| SplitOrchestrator.SplitFailureStops | openstf/model/split_energy.py:37-40 | a failed split ends the run after the two reads, with nothing validated, written or posted |
| SplitOrchestrator.MaeIsValidated | openstf/model/split_energy.py:44-51 | an MAE that drifts from the historical mean MAE is enough to reject the run |
| SplitOrchestrator.NoEffectsInReads | openstf/model/split_energy.py:32-50 | the calls before validation write nothing and post nothing |
| RunTracy.InProgressFlag | openstf/tasks/run_tracy.py:61 | the three job states are the `inprogress` values 0, 1 and 2 |
| RunTracy.Classify | openstf/tasks/run_tracy.py:70-82 | the two training names give Train, the two hyperparameter names give Optimize, and everything else gives Unknown (each both ways) |
| RunTracy.PendingJobsMembers | openstf/tasks/run_tracy.py:50 | the fetched jobs are exactly the rows whose status is `inprogress` 0 |
| RunTracy.JobsFareApart | openstf/tasks/run_tracy.py:68-87 | two fetched jobs with different ids but the same name and arguments can end differently, one completing and one raising |
| RunTracy.ProcessJob | openstf/tasks/run_tracy.py:60-100 | one pass of the loop body, with its `continue` and its `except`, makes exactly the specified effects of that job |
| RunTracy.RunTracyJobs | openstf/tasks/run_tracy.py:48-104 | the loop, with its `continue` and its `except`, makes the effects of the fetched jobs, job after job |
| RunTracy.NothingPendingNoEffects | openstf/tasks/run_tracy.py:50-55 | with no pending row, there is no update, delete or post |
| RunTracy.JobBlock | openstf/tasks/run_tracy.py:59-101 | for any job among the fetched ones, the run's effects are those of the jobs before it, then that job's block, then those of the jobs after it |
| RunTracy.MarkedFirst | openstf/tasks/run_tracy.py:60-62 | writing the job back as in progress, with `inprogress` 1, is the first thing done with it |
| RunTracy.MarkedCopies | openstf/tasks/run_tracy.py:59-61 | the marked copies are one per fetched job, in fetch order, each the job with `inprogress` 1 |
| RunTracy.MarkedInFetchOrder | openstf/tasks/run_tracy.py:59-62 | the in-progress writes are exactly the fetched jobs, once each, in fetch order |
| RunTracy.JobEventsCount | openstf/tasks/run_tracy.py:68-100 | within one job's effects, a known job is deleted once and reported processed once, and reported as an exception once iff its handler raised; an unknown job gets none of these |
| RunTracy.PerJobEffects | openstf/tasks/run_tracy.py:87-100 | over the whole run, with distinct ids, each fetched job gets exactly those counts |
| RunTracy.UnknownJobUntouched | openstf/tasks/run_tracy.py:82-84 | an unknown job is never deleted and no Teams message is posted for it |
| RunTracy.JobOverlay | openstf/tasks/run_tracy.py:59-100 | processing one job leaves its row in progress if the job is unknown, deletes it otherwise, and leaves every other row as it was |
| RunTracy.FinalState | openstf/tasks/run_tracy.py:48-104 | after the run, pending rows of known jobs are gone whatever their handlers did; pending rows of unknown jobs are in progress; all other rows are unchanged |

## Left out

- `scipy.optimize.curve_fit` is a parameter. Nothing is claimed about convergence, optimality or its use of `p0` and the bounds.
- Floating point is modelled as exact `real` arithmetic. NaN, infinities, rounding, and the `"inf"` strings given as bounds are not modelled.
- pandas and numpy are reduced to sequences and maps, and index types to integer timestamps. `.date()` is the day number, with time zones not modelled.
- `datetime.utcnow()` is a parameter.
- `DataBase` and its queries, `write_energy_splitting_coefficients`, and the `ktp_api` Tracy calls are not modelled. The database is an input, and the calls are recorded in a trace.
- `post_teams_alert`, `post_teams` and the text of their messages are not modelled. A post is recorded with the job or frame it shows.
- Logging, `logger.bind`, `TaskContext` and `main` are I/O plumbing and are not modelled.
- The bodies of `train_model_task`, `optimize_hyperparameters_task` and `get_prediction_job` are not modelled. Their outcome is the `handler` parameter.
- How `int()` parses `job["args"]` is not modelled. It is the `parse` parameter.
- `find_components` is modelled only with `zero_bound=True` inside `split_energy`, which is how `split_energy` calls it. `ComponentSplitter.Split` takes either value.
- Python's dynamic typing is not modelled. Columns are assumed to hold numbers and the mean coefficients numbers too.
- RunTracy.PerJobEffects: requires distinct job ids. This is what the `todolist` primary key guarantees. With duplicate ids, the counts add up over the jobs that share an id.
- RunTracy.FinalState: requires distinct row ids, for the same reason.
- RunTracy.UnknownJobUntouched: requires distinct job ids, for the same reason.
- CoefFormatter.ConvertCoefdictToCoefsdf: requires a non-empty index. On an empty index the source builds the frame with NaT as `date_start` and `date_end`, because `NaT.date()` returns NaT. The model has no NaT. `split_energy` never formats an empty index, because `find_components` fails on it first.
- ComponentSplitter.BuildComponents: when the input's first column is named like one of the columns added later (`Inschatting`, `p0`, `Windopwek`, `Zonne-opwek`, `StandaardVerbruik`, `Residu`), pandas overwrites it. The model keeps the load separate. `split_energy` then raises at line 44 in both, because no column is named `load`.
- ComponentSplitter.ReconstructCoefdict: requires distinct column names. With duplicates, the dict comprehension keeps each name once, at its first position, with its last weight. `OrderedDict.FromEntries` models that case, but no lemma states its shape.
