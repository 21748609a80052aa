# Leak compensation post-processor for G-code

`gcode_postprocess.py` reads a G-code file line by line and writes a rewritten copy. Consecutive
`G1` moves that extrude are gathered into an *extrude block*, and consecutive `G1` moves that only
travel are gathered into a *travel block*. Every other command is copied through.

When an extrude block ends, the program estimates how much material will leak after the nozzle
stops, from the block's path length, the feedrate and the acceleration. It then takes that volume
off the tail of the block. Whole moves at the end lose their `E`. The move where the budget runs
out is split in two: a shortened extruding move, then a plain travel to the original end point.
Travel blocks are written unchanged.

The project models this core in Dafny and proves what it does:

- `wrappers.dfy`: `Option` and `Result`.
- `commands.dfy`: a parsed command (its `'command'` entry and its field map), the exceptions the
  program can raise, and the two classifiers `is_travel_cmd` and `is_extrude_cmd`.
- `parser.dfy`: `str.split(' ')` and `parse_command`. The function `ParseLine` specifies it, and the
  method `ParseCommand` implements it with the source's loop over the words.
- `compensation.dfy`:
  - the leak estimate, written `LeakEstimate`;
  - the rewrite of the block, specified by `Rewrite`/`Walk` and implemented with the source's
    backwards loop (`WalkBack`, `SplitSegment`, `RemoveLeak`, `CompensateExtrude`);
  - `compensate_travel`.
- `segmenter.dfy`: the body of `main`.
  - `Step` specifies one valid command and `Exec` specifies the whole file.
  - The methods `CloseExtrudeBlock`, `CloseTravelBlock`, `Dispatch`, `FinishCommand`,
    `ProcessCommand` and `Run` carry out the same steps on the loop's variables.
  - `Good` is the loop invariant.

Each exception the Python code raises is a `Crash` value in the model. This covers `IndexError`,
`ValueError`, `KeyError`, `ZeroDivisionError` and the `NameError` on the undefined `speed`. A run
that raises keeps everything written before the exception (`Transcript(out, crash)`).

`float()` and `math.sqrt` are parameters: `toFloat: string -> Option<real>` and `sqrt: real -> real`.
Lemmas that need a square root assume `IsSqrt(sqrt)`.

The model follows the code as written, including these behaviours:

- A move's whole `E` is removed only when the remaining leak volume is strictly greater than the
  move's extrusion increment (`>`, line 112). When the two are equal, the move is split instead.
- When the split falls on the first move of the block (`i == 0`), `cmd_list[i-1]` is
  `cmd_list[-1]`. So the interpolation starts from the block's last point, not the previous one.
- `last_pt` is never updated. Every block's first segment is measured from the origin.
- When the feedrate is reached (`feedrate/accel < sqrt(dist/accel)`), line 80 reads the undefined
  name `speed`. That branch always raises `NameError`.
- `accel_max` starts at 0. The first extrude block to close before any `M204` raises
  `ZeroDivisionError`. This is true even when the command that closes it is the `M204`, because the
  block is closed before the new acceleration is read.
- The feedrate used for compensation is the one set by the command that closes the block.
- Lines keep the `'\n'` they are read with, and the last word carries it into `float()`. A blank
  line is `"\n"` and is skipped as invalid. A command word alone on its line keeps the `'\n'` in its
  tag, so a bare `M204` line is not taken as `M204`: it neither sets the acceleration nor raises
  `KeyError('S')`.

## Model

| member | source | states |
|---|---|---|
| Commands.ClassifierExclusive | gcode_postprocess.py:29-47 | A command is never both travel and extrude. Neither holds for anything but G1, with Z, or without X and Y. Travel-or-extrude holds exactly for G1 with X or Y and no Z. Extrude implies E; travel implies no E. |
| Parser.JoinSplit | gcode_postprocess.py:14 | Joining the words of `split(' ')` with single spaces gives the line back, empty words included. |
| Parser.SplitJoin | gcode_postprocess.py:14 | Splitting a space-joined list of space-free words gives that list back. |
| Parser.FieldsSucceed | gcode_postprocess.py:24-25 | The words after the first parse without an exception exactly when every one of them is non-empty and `float()` accepts its tail. |
| Parser.FieldsFailureSticks | gcode_postprocess.py:24-25 | The first word that raises ends the parse with that exception, whatever follows. |
| Parser.FieldsKeys | gcode_postprocess.py:24-25 | After a successful parse, every word's upper-cased first letter is a key, and every key comes from some word. |
| Parser.FieldsLastWins | gcode_postprocess.py:24-25 | When a letter occurs twice, the value of its last word is the one kept. |
| Parser.ParseInvalid | gcode_postprocess.py:16-21 | A first word that does not start with G or M gives the command 'invalid' with no fields. |
| Parser.ParseEmptyFirstWord | gcode_postprocess.py:17 | The empty string or a leading space makes the first word empty, and `cmd_split[0][0]` raises IndexError. |
| Parser.LineEndingKept | gcode_postprocess.py:14-21 | A blank line as read from the file (`"\n"`) parses to 'invalid'. A G or M word alone on its line keeps the `'\n'` in its tag and has no fields. |
| Parser.ParseSucceeds | gcode_postprocess.py:17-27 | For a G or M line, parsing succeeds exactly when every following word parses. |
| Parser.ParseShape | gcode_postprocess.py:13-27 | A parsed G or M line is a valid command tagged with its first word. Its keys are the letters of the following words, with the last occurrence winning. |
| Parser.ParseCommand | gcode_postprocess.py:4-27 | The loop over the words gives exactly the result, or the exception, that `ParseLine` specifies. |
| Compensation.NotReachedCriterion | gcode_postprocess.py:78 | For positive acceleration, the "feedrate not reached" test holds exactly when the feedrate is non-negative and dist·accel ≤ feedrate². |
| Compensation.LeakEstimateOutcome | gcode_postprocess.py:71-94 | Acceleration 0 raises ZeroDivisionError. A negative acceleration over a positive distance raises ValueError. Otherwise the estimate succeeds exactly when the feedrate is not reached, and raises NameError when it is. A successful leak equals 0.001·sqrt(dist·accel)/2, lies between 0 and 0.001·feedrate/2, and is positive for a positive distance. |
| Compensation.BudgetClosedForm | gcode_postprocess.py:103-114 | The leak volume left when the walk reaches move i is the leak minus the extrusion of the moves after i. |
| Compensation.PopsClosedForm | gcode_postprocess.py:107-112 | The pop test at move i (line 112, once the walk reaches move i) holds exactly when the extrusion from the move before it to the block's end is below the leak. |
| Compensation.SplitIndexClosedForm | gcode_postprocess.py:103-131 | The walk splits at move k exactly when the extrusion from the move before k to the block's end is at least the leak, and for every later move it is below the leak. |
| Compensation.RemovesAllExtrusion | gcode_postprocess.py:103-114 | In a block of two or more moves, every E is removed exactly when every move pops. The block's total extrusion is then below the leak. |
| Compensation.SingleCommand | gcode_postprocess.py:97-101 | A one-move block keeps one move. Its E is lowered by the leak when the leak is below e_dist, and removed otherwise; the other fields are kept. |
| Compensation.SplitShape | gcode_postprocess.py:115-131 | A split at move k gives one more command than the block. Moves before k are unchanged. Move k keeps its other fields, moves to the interpolated point and has E lowered by the remaining leak. A G1 travel to move k's old point follows it, and the later moves lose their E. |
| Compensation.SplitStaysOnSegment | gcode_postprocess.py:117-126 | For a non-negative leak, the split move's increment is positive and the extrude fraction is in [0, 1]. Its new E lies between the previous move's E and its own. |
| Compensation.PositiveLeakNeverDividesByZero | gcode_postprocess.py:107-117 | With a positive leak, the rewrite never divides by a zero increment. |
| Compensation.CompensatedOutcome | gcode_postprocess.py:65-133 | For a non-empty block with positive distance and acceleration, the only possible exception is NameError. Compensation succeeds exactly when the feedrate is not reached. |
| Compensation.WalkBack | gcode_postprocess.py:103-131 | The backwards loop over a block of two or more moves produces exactly what `Walk` specifies: pops, split and exceptions. |
| Compensation.SplitSegment | gcode_postprocess.py:115-131 | The split branch, given the loop's state at the stopping move, gives exactly what `SplitAtIndex` specifies: ZeroDivisionError on a zero increment, otherwise the shortened move, the inserted travel and the later moves without E. |
| Compensation.RemoveLeak | gcode_postprocess.py:96-133 | Lowering the block by a leak volume produces exactly what `Rewrite` specifies, for blocks of every length. |
| Compensation.CompensateExtrude | gcode_postprocess.py:65-133 | `compensate_extrude` returns an empty block as it is, and otherwise the estimate followed by the rewrite, as `Compensated` specifies. |
| Compensation.CompensateTravel | gcode_postprocess.py:135-136 | A travel block is returned unchanged. |
| Segmenter.PathLengthAppend | gcode_postprocess.py:209-212 | Adding a point to a path adds the length of its last segment. |
| Segmenter.StepKeepsGood | gcode_postprocess.py:158-233 | Each valid command keeps the loop invariant. At most one block is open, and the buffer is empty outside blocks. Blocks hold commands buffered in their kind's form. `last_pt` stays at the origin. An extrude block's distance is the path length from the origin through its points. |
| Segmenter.BufferExtrudeKeepsGood | gcode_postprocess.py:198-214 | Buffering an extrude move keeps the block's distance equal to the path length through its points. |
| Segmenter.ExtrudeBlockCloses | gcode_postprocess.py:168-178 | A non-extrude command closes an open extrude block. If compensation raises, nothing more is written. Otherwise the compensated block is written, then what the command writes from the closed state. Compensation uses the path length from the origin, the last E, this command's feedrate and the old acceleration. |
| Segmenter.TravelBlockCloses | gcode_postprocess.py:181-195 | A non-travel command closes an open travel block: the block is written unchanged, then what the command writes from the closed state. |
| Segmenter.ExtrudeOpensBlock | gcode_postprocess.py:198-214 | Outside blocks, an extrude move writes nothing. It opens a block holding its X, Y, E and the current feedrate, measured from the origin. It raises KeyError('X') or KeyError('Y') when either is missing. |
| Segmenter.ExtrudeExtendsBlock | gcode_postprocess.py:198-214 | Inside an extrude block, an extrude move is appended with the current feedrate, and its segment is added to the distance. A move without X or without Y raises KeyError for the first missing key. Nothing is written. |
| Segmenter.TravelOpensBlock | gcode_postprocess.py:217-225 | Outside blocks, a travel move writes nothing. It opens a block holding its X, Y and the current feedrate. It raises KeyError when X or Y is missing. |
| Segmenter.TravelExtendsBlock | gcode_postprocess.py:217-225 | Inside a travel block, a travel move is appended with the current feedrate. A move without X or without Y raises KeyError for the first missing key. Nothing is written. |
| Segmenter.OtherPassesThrough | gcode_postprocess.py:228-233 | Outside blocks, any other command is written as it is. M204 sets the acceleration from S, and raises KeyError('S') without it. |
| Segmenter.SettingsFollowCommands | gcode_postprocess.py:163-231 | After a command, the feedrate is its F if it has one, and is otherwise unchanged. The acceleration changes only on M204, to its S. |
| Segmenter.ZeroAccelerationCrashes | gcode_postprocess.py:168-178 | With acceleration 0, closing an extrude block raises ZeroDivisionError and writes nothing, even when the closing command is M204. |
| Segmenter.InvalidLineSkipped | gcode_postprocess.py:162 | A line whose command is 'invalid' writes nothing and changes nothing. |
| Segmenter.EndOfFileWritesBuffer | gcode_postprocess.py:235-236 | At end of file the buffer is written as it is, without compensation. It is non-empty exactly when a block is open. |
| Segmenter.CloseExtrudeBlock | gcode_postprocess.py:168-178 | The extrude-block closing on the loop's variables gives exactly what `CloseExtrude` specifies. |
| Segmenter.CloseTravelBlock | gcode_postprocess.py:181-195 | The travel-block closing on the loop's variables gives exactly what `CloseTravel` specifies. |
| Segmenter.Dispatch | gcode_postprocess.py:198-233 | The three final branches give what buffering an extrude move, buffering a travel move or passing the command through specifies. |
| Segmenter.FinishCommand | gcode_postprocess.py:181-233 | Closing a travel block and then buffering or passing the command through gives exactly what `Finish` specifies. |
| Segmenter.ProcessCommand | gcode_postprocess.py:163-233 | One valid command, processed on the loop's variables, writes and leaves exactly what `Step` specifies. |
| Segmenter.Run | gcode_postprocess.py:147-236 | The main loop writes exactly the commands `Exec` specifies, in order. It stops with the same exception, keeping what was written before it. |

## Left out

- `cmd_to_file` is not modelled: the `.3f` formatting, the `G1` written for buffered commands and the file writes. The output is the sequence of commands handed to it.
- The model does not cover command-line handling, building the output file name, or opening and reading files. The input is the sequence of lines as `for line in f_in` yields them (line 158), each keeping its trailing `'\n'`.
- `float()` and `math.sqrt` are parameters, not definitions. Floating-point rounding is not modelled: values are exact reals.
- `str.upper()` is modelled for ASCII letters only. Other characters keep their case.
- Dictionary key order is not modelled, because fields are a map. The order only affects formatting in `cmd_to_file`.
- `extrude_dist = 0` at line 202 is not modelled. That value is overwritten before every use.
- Segmenter.TravelDist: the distance computed when a travel block closes is kept in the state, but nothing reads it (`compensate_travel` ignores it).
- Segmenter.Run: the in-place mutation of the buffered dictionaries by `compensate_extrude` is modelled as building new values. Nothing aliases them once the block is written.
