# Motion sensor verification

A model in Dafny of five parts of the InvenSense motion stack, and proofs about them: the kernel driver's
FIFO pipeline with its clock-tracking loop, the user-space reader of what it pushes, the library's
fixed-point Newton-Raphson routines, its calibration storage, the driver's banked access to the motion
processor's (DMP) memory, and the library's data builder with its callback registry and sensor statuses.

`int` and `long` are 32 bits wide, as on the repository's ARM targets; wrap-around and cuts are written out
(`U32`, `S32`, ...). Memory is little-endian.

| files | what they hold |
|---|---|
| `Machine.dfy`, `FixedPoint.dfy` | machine integers, byte encodings, Q30 numbers |
| `Normaliser.dfy`, `NewtonAnalysis.dfy`, `NewtonRoots.dfy`, `NewtonInverseRoot.dfy`, `NewtonReciprocal.dfy`, `ScalarPart.dfy` | `inv_fast_sqrt`, `inv_inverse_sqrt`, `inv_one_over_x`, the scalar part. `NewtonAnalysis` is the mathematics over `real`: exact recurrences, and bounds on what rounding adds |
| `Fifo.dfy`, `FifoTheorems.dfy`, `FifoTimes.dfy` | what an uncut FIFO byte stream means, and what follows |
| `Ring.dfy`, `Service.dfy` | the driver as a class, with its buffers and carried bytes, and the interrupts that drive it |
| `ClockLoop.dfy`, `Settling.dfy`, `Tracking.dfy`, `Skipped.dfy`, `Periods.dfy`, `Punctual.dfy` | the clock loop over every run, how fast it settles, the running driver against a chip of constant period, and what follows for sample periods and times |
| `Records.dfy`, `Reader.dfy`, `Pipeline.dfy` | the bytes of pushed records, the reader thread, and both ends together |
| `Batch.dfy` | rates, batch timeout and FIFO size |
| `Checksum.dfy`, `Storage.dfy`, `StorageManager.dfy` | the calibration image as functions and as the registry's loops over a buffer |
| `DmpMemory.dfy`, `Orientation.dfy` | banked memory; mounting matrices in the library and in the kernel |
| `Callbacks.dfy`, `SensorStatus.dfy`, `DataBuilder.dfy` | callback list, status words over runs, and the object that holds both |

`dafny verify dfyconfig.toml` checks everything.

Where the code falls short of what it is for, the exact condition is proved:

- A feature of size zero that was registered last is saved but not loaded, because the loop wants more than a
  header (`Storage.RoundTrip`, `Storage.EmptyFeatureNotLoaded`).
- The 32-bit product in `inv_batchmode_calc` can wrap below the cap, and then the first batch overruns the FIFO
  (`Batch.BatchFits`, `Batch.WrappedBatchOverflows`).
- Later batches start in the middle of a period and can hold one more sample of a sensor, up to a full hardware
  FIFO (`Batch.SecondBatchFillsFifo`); a rate that does not divide 200 is rounded up by the divider
  (`Batch.RoundedRateOverflows`). For all rates, all batches fit exactly under the condition of
  `Batch.EveryBatch`.
- The byte rate is cut to 16 bits, and is the true one exactly if that has sixteen
  (`Batch.Setup.Configure`, `Batch.ByteRateVanishes`).
- A read that ends inside a step indicator makes the reader step past its buffer
  (`Reader.ReaderInvertsDriver`, `Reader.CutIndicatorLost`).
- The firmware check never reads the first 224 bytes back (`DmpMemory.CheckIsPartial`,
  `DmpMemory.CorruptFirstBankAccepted`).
- Step times coincide when the sensor's period has fewer nanoseconds than steps
  (`FifoTimes.IndicatorsBetweenPackets`).
- The orientation check keeps codes whose conversions are not inverse (`Orientation.CheckKeepsClashes`,
  `Orientation.ConversionsAreInverse`).
- A checksum does not notice every change of two neighbouring bytes (`Checksum.TwoBytesDetected`,
  `Checksum.TwoBytesUnnoticed`), so an image can be corrupt and loaded (`Storage.TwoByteCorruptionAccepted`).
- Ticks are read before the FIFO is known to be empty, and then the next adjustment sees more time than ticks
  (`Skipped.SkippedMeasurement`, `Skipped.EmptyFifoMisleads`).

Where comments and code disagree the model follows the code: `inv_inverse_sqrt` is documented to return zero on
failure but tests nothing; `get_highest_bit_position` returns the number of left shifts, not a position; the comments
give 0.65 to 1.3 as the normalised range, the constants are log 2 to log 4.

## Model

| member | source | states |
|---|---|---|
| FixedPoint.Q30MultVal | mpl/software/core/mllite/ml_math_func.c:113-126 | the Q30 product is exact to one unit in the last place, rounded down, and its cut to 32 bits loses nothing, whenever the real product is in [-2, 2) |
| FixedPoint.Multiply | mpl/software/core/mllite/ml_math_func.c:113-126 | the same as a call that demands a representable product; every multiplication of the Newton routines goes through it, so none of them overflows |
| Normaliser.GetHighestBitPosition | mpl/software/core/mllite/ml_math_func.c:1026-1056 | every number below 2^31 is shifted into [2^30, 2^31) by exactly the returned power of two, losing no bit; a larger one gives -1 and its half |
| Normaliser.TestLimitsAndScale | mpl/software/core/mllite/ml_math_func.c:973-1020 | every positive input ends in [744261118, 1488522236], as x0 2^pow exactly, or as floor(x0/2) with pow = -1 exactly above the upper limit; the iteration count is the region's; the doubling branch is dead |
| NewtonAnalysis.StepKeepsSquare | mpl/software/core/mllite/ml_math_func.c:846-858 | the exact recurrence c' = c^2 (c - 3)/4, a' = a (1 - c/2) keeps a^2 = x (1 + c) |
| NewtonAnalysis.ReciprocalSquares | mpl/software/core/mllite/ml_math_func.c:940-951 | one exact reciprocal step squares the residual 1 - x y |
| NewtonAnalysis.RootStateStep | mpl/software/core/mllite/ml_math_func.c:846-858 | how far the rounded step of the square root can drift from a^2 = x (1 + c): from e to 1.11 e + 4.42 units in the last place |
| NewtonAnalysis.InverseStep | mpl/software/core/mllite/ml_math_func.c:785-794 | a rounded step y (3/2 - z y^2) meets the exact residual recurrence up to 8 units in the last place |
| NewtonRoots.FastSqrt | mpl/software/core/mllite/ml_math_func.c:812-868 | for every input: 0 if it is not positive, else a 32-bit r with (r-k)^2 <= x 2^30 <= 1.0001 (r+k)^2, k = 8 (14 above log 4), no intermediate value leaving 32 bits |
| NewtonRoots.SqrtNormalised | mpl/software/core/mllite/ml_math_func.c:846-859 | one, two or three iterations, by region, reach the root of a normalised number to 8 units |
| NewtonRoots.UndoScaling | mpl/software/core/mllite/ml_math_func.c:860-867 | taking half of an even, odd or -1 power of two off the root gives the root of the input |
| NewtonInverseRoot.InverseSqrt | mpl/software/core/mllite/ml_math_func.c:735-803 | for every positive input x y^2 2^(2 rempow) is 1 to within 10^-4, odd powers and the halved case included |
| NewtonInverseRoot.InverseNormalised | mpl/software/core/mllite/ml_math_func.c:782-794 | the iterations reach the inverse root of a normalised number to 9.2e-5 in the square |
| NewtonReciprocal.OneOverX | mpl/software/core/mllite/ml_math_func.c:879-962 | for every nonzero input above -2^31, x y 2^pow is 1 to within 1.6e-8 with the input's sign; 0 gives 0 |
| NewtonReciprocal.Prescale | mpl/software/core/mllite/ml_math_func.c:921-938 | scaling towards 1 leaves an argument for which the chosen number of iterations is enough |
| NewtonReciprocal.Reciprocate | mpl/software/core/mllite/ml_math_func.c:940-951 | seed and iterations leave a residual below 1.02e-8 plus rounding |
| ScalarPart.ComputeScalarPart | mpl/software/core/mllite/ml_math_func.c:1062-1075 | for all inputs the vector part is kept; while no square or difference overflows, which elements in [-1, 1] never cause, the quaternion has unit length up to 10^-4 plus a few units, and an over-long vector part gets a zero real part |
| ScalarPart.SquareFits | mpl/software/core/mllite/ml_math_func.c:1066-1068 | the square of an element survives the cut to 32 bits if and only if it is below 2 |
| Checksum.InvChecksum | mpl/software/core/mllite/ml_math_func.c:542-553 | the shift-and-add loop computes the hash h = 33 h + c modulo 2^32 of the whole string |
| Checksum.KnownHashes | mpl/software/core/mllite/ml_math_func.c:542-553 | the checksums of two known strings |
| Checksum.OneByteDetected | mpl/software/core/mllite/ml_math_func.c:542-553 | two strings of one length that differ in exactly one byte have different checksums |
| Checksum.TwoBytesDetected | mpl/software/core/mllite/ml_math_func.c:542-553 | a change of two neighbouring bytes goes unnoticed if and only if 33 times the first change plus the second is zero |
| Checksum.TwoBytesUnnoticed | mpl/software/core/mllite/ml_math_func.c:542-553 | behind any beginning 0, 33 and 1, 0 have the same checksum |
| StorageManager.Manager.constructor | mpl/software/core/mllite/storage_manager.c:54-58 | an empty registry whose image is one header |
| StorageManager.Manager.Register | mpl/software/core/mllite/storage_manager.c:70-93 | a known key or a twenty-first feature is rejected and changes nothing; anything else is appended; keys stay unique and total_size stays the size of the image |
| StorageManager.Manager.FindEntry | mpl/software/core/mllite/storage_manager.c:109-118 | the index of the registered key, or -1 |
| StorageManager.Manager.SaveMplStates | mpl/software/core/mllite/storage_manager.c:176-206 | too small a buffer is refused unchanged; otherwise its first total_size bytes become the image of what the save callbacks write, and no other byte changes |
| StorageManager.Manager.LoadMplStates | mpl/software/core/mllite/storage_manager.c:126-168 | result and callback calls are those of the loading function on the same bytes |
| StorageManager.Manager.SaveThenLoad | mpl/software/core/mllite/storage_manager.c:126-206 | saving and loading through the buffer succeeds and calls every load callback once, in order, with the bytes of its save callback (the last one only if it has bytes) |
| Storage.RoundTrip | mpl/software/core/mllite/storage_manager.c:126-206 | for unique keys, loading a saved image into the same registry succeeds; it delivers everything if and only if the last feature's size is not zero, and otherwise everything but that one |
| Storage.EmptyFeatureNotLoaded | mpl/software/core/mllite/storage_manager.c:149-149 | one feature of size zero: its image loads with success and its load callback is never called |
| Storage.LoadOfImage | mpl/software/core/mllite/storage_manager.c:143-165 | loading an image into any registry delivers, entry by entry, what has a matching key and size, skips unknown keys and stops with the length error at the first size clash |
| Storage.OneByteCorruptionRejected | mpl/software/core/mllite/storage_manager.c:138-147 | an image with any one byte changed outside its size field is rejected before any callback is called |
| Storage.TwoByteCorruptionAccepted | mpl/software/core/mllite/storage_manager.c:138-163 | a feature of two bytes, 0 and 33, whose image with 1 and 0 in their place passes both checksums and delivers them |
| Storage.HeaderRoundTrip | mpl/software/core/mllite/storage_manager.c:37-41 | the three header words come back from their twelve bytes |
| Storage.KnownHeader | mpl/software/core/mllite/storage_manager.c:37-41 | the twelve bytes of one header |
| Storage.DeliveredIsCertified | mpl/software/core/mllite/storage_manager.c:149-165 | whatever the data, every delivered payload has the registered size and stands behind a header with its key and its checksum |
| Ring.Driver.constructor | kernel/drivers/staging/iio/imu/inv_mpu/inv_mpu_ring.c:1779-1797 | initial sample sizes, 40 ms durations and a step sensor of one second, all stamped now, nothing left over |
| Ring.Driver.PushMarker | kernel/drivers/staging/iio/imu/inv_mpu/inv_mpu_ring.c:41-53 | one marker record is appended to the IIO buffer, six of its bytes free |
| Ring.Driver.Push8Bytes | kernel/drivers/staging/iio/imu/inv_mpu/inv_mpu_ring.c:55-77 | one 16-byte record is appended: header, vector, time |
| Ring.Driver.Push16Bytes | kernel/drivers/staging/iio/imu/inv_mpu/inv_mpu_ring.c:79-108 | one 24-byte record is appended: header, quaternion, time |
| Ring.Driver.PushStepIndicator | kernel/drivers/staging/iio/imu/inv_mpu/inv_mpu_ring.c:1379-1393 | steps - 1 records, a whole fraction of the sensor's period apart |
| Ring.Driver.ProcessPacket | kernel/drivers/staging/iio/imu/inv_mpu/inv_mpu_ring.c:1477-1547 | one turn of the parsing loop moves, stamps and pushes what the stream parser says for the next packet, or stops where it stops |
| Ring.Driver.ParseBuffer | kernel/drivers/staging/iio/imu/inv_mpu/inv_mpu_ring.c:1473-1547 | the whole loop is one run of the stream parser over the buffer |
| Ring.Driver.ReadFifo | kernel/drivers/staging/iio/imu/inv_mpu/inv_mpu_ring.c:1460-1471 | bursts of at most 64 bytes put the FIFO's contents behind the left-over, inside the 1040-byte buffer; the first burst that returns a negative code stops it with that code |
| Ring.Driver.ProcessBatchmode | kernel/drivers/staging/iio/imu/inv_mpu/inv_mpu_ring.c:1421-1563 | one interrupt: records pushed, sensor times, discard-first flags and left-over are the stream parser's result on left-over + FIFO bytes (after the reset of a full FIFO); the clock is adjusted once if a measurement is pending; left-over stays at most 15 bytes, so neither overflow clamp acts; too many bytes or a read error leave parsing untouched |
| Ring.Driver.ResetTs | kernel/drivers/staging/iio/imu/inv_mpu/inv_mpu_ring.c:1368-1377 | a full FIFO dates all sensors back by the time 1024 bytes take at the byte rate, to within one step of 1024 microseconds |
| Ring.Driver.AdjustSensorTs | kernel/drivers/staging/iio/imu/inv_mpu/inv_mpu_ring.c:1332-1366 | exactly one step of the clock loop; afterwards every enabled sensor has dur = dmp_interval * counter, the others keep theirs; nothing at all without a measurement |
| Ring.Driver.ReadTimeAndTicks | kernel/drivers/staging/iio/imu/inv_mpu/inv_mpu_ring.c:1565-1598 | when a measurement becomes pending, and the tick difference modulo 2^32 of the counter readings |
| Ring.Driver.Restart | kernel/drivers/staging/iio/imu/inv_mpu/inv_mpu_ring.c:587-604 | the end of a FIFO reset: clock, times, discard-first flags and left-over start again, durations and the counter last read stay |
| FifoTheorems.CutsDoNotMatter | kernel/drivers/staging/iio/imu/inv_mpu/inv_mpu_ring.c:1421-1563 | parsing any series of pieces with carried left-over gives the records, state and left-over of one pass over their concatenation |
| FifoTheorems.ParseOfPieces | kernel/drivers/staging/iio/imu/inv_mpu/inv_mpu_ring.c:1473-1560 | the same for one cut of one stream |
| FifoTheorems.BytesConserved | kernel/drivers/staging/iio/imu/inv_mpu/inv_mpu_ring.c:1477-1560 | the bytes kept are the end of the stream, everything before them was consumed by packets, and at most 15 are kept |
| FifoTheorems.ParseOfStream | kernel/drivers/staging/iio/imu/inv_mpu/inv_mpu_ring.c:1477-1547 | packets that the chip sends for enabled sensors are parsed back to exactly their values, headers and times, with nothing left over |
| FifoTheorems.NextOfPacket | kernel/drivers/staging/iio/imu/inv_mpu/inv_mpu_ring.c:1477-1547 | one such packet, whatever follows it: for the sensor that its header number names, one period after that sensor's last stamp, with the step bit if there were steps, behind steps - 1 interpolated records |
| FifoTheorems.OthersSkipped | kernel/drivers/staging/iio/imu/inv_mpu/inv_mpu_ring.c:1482-1487 | a header that names no sensor, or one that is off, skips eight bytes and changes nothing |
| FifoTheorems.IncompleteWaits | kernel/drivers/staging/iio/imu/inv_mpu/inv_mpu_ring.c:1488-1493 | for an enabled sensor the parser waits for the eight or sixteen bytes of its packet, and no longer |
| FifoTheorems.FirstIsDropped | kernel/drivers/staging/iio/imu/inv_mpu/inv_mpu_ring.c:1506-1534 | one compass packet, and one pressure packet, ends the dropping of the first one, on every stream |
| FifoTheorems.IndicatedIs | kernel/drivers/staging/iio/imu/inv_mpu/inv_mpu_ring.c:1379-1393 | the loop makes the record for step k at k times the whole fraction of the period, for k from 1 to steps - 1 |
| Fifo.SensorIsNamed | kernel/drivers/staging/iio/imu/inv_mpu/inv_mpu_ring.c:1395-1418 | the header numbers belong to the sensors that they name, and all others to none |
| Pipeline.AccelPacketParsed | kernel/drivers/staging/iio/imu/inv_mpu/inv_mpu_ring.c:1477-1547 | the eight bytes 40 00 00 01 00 02 00 03 are the accelerometer's sample (1, 2, 3), 20 ms after the last one |
| Pipeline.AccelRecordRead | mpl/software/simple_apps/stress_iio/stress_iio.c:796-803 | and the sixteen bytes of its record are reported as the accelerometer's sample |
| FifoTheorems.NextOfPrefix | kernel/drivers/staging/iio/imu/inv_mpu/inv_mpu_ring.c:1478-1493 | more bytes never change the meaning of a complete packet |
| FifoTimes.TimesMoveForward | kernel/drivers/staging/iio/imu/inv_mpu/inv_mpu_ring.c:1379-1393 | over a stream parsed with fixed periods of at least 15 ns and no 64-bit wrap, the times pushed for a sensor (steps included, step detector excluded) strictly increase from the stamp it had |
| Service.ReadFifo | kernel/drivers/staging/iio/imu/inv_mpu/inv_mpu_ring.c:1603-1718 | one interrupt with the DMP on: the guards in front (interrupt status, events only, 37 ms, significant motion), time and ticks, the flush of an odd count, then parsing and clock adjustment, with every error path |
| Service.Serve | kernel/drivers/staging/iio/imu/inv_mpu/inv_mpu_ring.c:1603-1718 | a series of interrupts on the running driver is the run of the specification from its state |
| Service.TimesOverRun | kernel/drivers/staging/iio/imu/inv_mpu/inv_mpu_ring.c:1332-1563 | over any run of interrupts, with the periods readjusted in between, the times pushed for a sensor strictly increase from the stamp it had, while its period is at least 15 ns at every interrupt |
| Service.ServeInOrder | kernel/drivers/staging/iio/imu/inv_mpu/inv_mpu_ring.c:1332-1679 | the same of what the running driver adds to its buffer |
| Service.MotionIsServed | kernel/drivers/staging/iio/imu/inv_mpu/inv_mpu_ring.c:1303-1632 | significant motion gets its own interrupt through, or the next one if only events were wanted, whatever the 37 ms, and is then used up |
| Service.ServedApart | kernel/drivers/staging/iio/imu/inv_mpu/inv_mpu_ring.c:1624-1628 | without it, the interrupts served over every run are 37 ms apart |
| Service.OddCountFlushes | kernel/drivers/staging/iio/imu/inv_mpu/inv_mpu_ring.c:1671-1717 | an odd count pushes nothing, drops what was left over, and starts all stamps at the reset and the clock at 5 ms |
| Service.EndedParsesNothing | kernel/drivers/staging/iio/imu/inv_mpu/inv_mpu_ring.c:1657-1674 | an empty FIFO, or no ticks or count, leaves parser, left-over and clock as they were |
| Service.DroppedDoesNothing | kernel/drivers/staging/iio/imu/inv_mpu/inv_mpu_ring.c:1620-1632 | a dropped interrupt touches the guards only |
| Service.FullFifoStartsOver | kernel/drivers/staging/iio/imu/inv_mpu/inv_mpu_ring.c:1432-1445 | 1024 bytes are parsed with all sensors dated back and nothing in front of them; more are not read |
| Punctual.SteadyFromStart | kernel/drivers/staging/iio/imu/inv_mpu/inv_mpu_ring.c:1332-1563 | the hypothesis of Service.TimesOverRun follows from the starting state: a chip of constant period, a clock within a bound of it, a sensor whose period stays between 15 ns and 2^31 at both ends of that bound, and room for the bytes below 2^64 |
| Punctual.ServePunctually | kernel/drivers/staging/iio/imu/inv_mpu/inv_mpu_ring.c:1332-1679 | so, from no momentum, the running driver keeps the times of a sensor in order over every such run |
| FifoTimes.TimePerByte | kernel/drivers/staging/iio/imu/inv_mpu/inv_mpu_ring.c:1477-1547 | eight bytes move a sensor's time by at most one period |
| FifoTimes.IndicatorsBetweenPackets | kernel/drivers/staging/iio/imu/inv_mpu/inv_mpu_ring.c:1379-1393 | the interpolated step times increase strictly between the previous packet's time and the next if and only if the period has at least one nanosecond per step |
| Pipeline.Interrupts | kernel/drivers/staging/iio/imu/inv_mpu/inv_mpu_ring.c:1421-1563 | the running driver over a series of interrupts pushes and keeps what one pass over all bytes would |
| ClockLoop.GetShift2 | kernel/drivers/staging/iio/imu/inv_mpu/inv_mpu_ring.c:1315-1330 | 13 less the bit length of the count: the shift i with 2^(12 - i) <= count < 2^(13 - i) from 2 to 2000 ticks; 13 for one tick and for none, 2 above 2000 |
| ClockLoop.ClampLimits | kernel/drivers/staging/iio/imu/inv_mpu/inv_mpu_ring.c:1341-1356 | however many ticks there were, a correction never moves the clock by more than 2^31 ns over them |
| ClockLoop.NoTicksCountAsOne | kernel/drivers/staging/iio/imu/inv_mpu/inv_mpu_ring.c:1341-1342 | a measurement without ticks is one with a single tick |
| Machine.TruncatesToZero | kernel/drivers/staging/iio/imu/inv_mpu/inv_mpu_ring.c:1352-1352 | the divisions of the source leave a remainder smaller than the divisor, with the sign of the dividend |
| ClockLoop.MeasureDelta | kernel/drivers/staging/iio/imu/inv_mpu/inv_mpu_ring.c:1332-1356 | the clamped and shifted correction of one adjustment |
| ClockLoop.DeltaOpposesError | kernel/drivers/staging/iio/imu/inv_mpu/inv_mpu_ring.c:1341-1356 | when elapsed = period * ticks the correction is minus the error shifted down and limited to 50000: the 31-bit clamp of the difference never shows |
| ClockLoop.ShiftTimesCount | kernel/drivers/staging/iio/imu/inv_mpu/inv_mpu_ring.c:1315-1330 | the shift is 2 to 13 and 2^shift * ticks is at most 40000 |
| ClockLoop.TrackingErrorBounded | kernel/drivers/staging/iio/imu/inv_mpu/inv_mpu_ring.c:1332-1366 | on every run with 1 to 10000 ticks per adjustment, in any mixture of shifts up to s, the tracking error never exceeds max(initial error, 2^s), and the momentum never half of that, nor 100000 |
| ClockLoop.StaysWithin | kernel/drivers/staging/iio/imu/inv_mpu/inv_mpu_ring.c:1332-1366 | the invariant behind it, kept by every adjustment: where error and momentum can be together |
| Tracking.ClockOverRun | kernel/drivers/staging/iio/imu/inv_mpu/inv_mpu_ring.c:1332-1679 | against a chip with a constant period, over every run of interrupts in which each measurement is followed by its adjustment, with dropped, early and failing calls at any times in between, the clock makes exactly the run of the clock loop over the measurements |
| Tracking.TrackClock | kernel/drivers/staging/iio/imu/inv_mpu/inv_mpu_ring.c:1332-1679 | so the running driver, from no momentum, never exceeds the bound of ClockLoop.TrackingErrorBounded |
| Periods.PacedOverRun | kernel/drivers/staging/iio/imu/inv_mpu/inv_mpu_ring.c:1332-1679 | over every such run: once a measurement was made, every enabled sensor's period is its counter times the driver's interval; settings, and periods of disabled sensors, never change |
| Periods.TrackPeriods | kernel/drivers/staging/iio/imu/inv_mpu/inv_mpu_ring.c:1332-1679 | so on the running driver each enabled sensor's period is within counter * bound of counter ticks of the chip |
| Periods.RateKept | kernel/drivers/staging/iio/imu/inv_mpu/inv_mpu_ring.c:918-919 | with the counter of Batch.Setup.Configure that is the chip's own sample period; if the rate divides 200, rate of these periods are 200 ticks, to within 200 * bound |
| Skipped.SkippedMeasurement | kernel/drivers/staging/iio/imu/inv_mpu/inv_mpu_ring.c:1657-1674 | a measurement that finds the FIFO empty: the next adjustment sees all the time and only its own ticks, and gives the right clock if and only if its correction is at the same limit of 50000 either way |
| Skipped.EmptyFifoMisleads | kernel/drivers/staging/iio/imu/inv_mpu/inv_mpu_ring.c:1657-1674 | an exact clock, an empty FIFO after one second and eight bytes after two: the interval becomes 5050000 |
| Settling.Converges | kernel/drivers/staging/iio/imu/inv_mpu/inv_mpu_ring.c:1332-1366 | an initial error e of at most 2^h 2^s (or 2^h 64) is within 2^s after 4 h (2^s + 40) + e / 50000 + 515 adjustments, and after 8 e + 2 in any case, in any mixture of shifts up to s; by ClockLoop.StaysWithin it stays there |
| Settling.OneLevel | kernel/drivers/staging/iio/imu/inv_mpu/inv_mpu_ring.c:1332-1366 | from inside any bound above 64 and 2^s the loop comes inside three quarters of it and 4 (or 2^s): a quarter of the bound in steps of the least correction there, and at most 37 adjustments for the momentum |
| Batch.Setup.Configure | kernel/drivers/staging/iio/imu/inv_mpu/inv_mpu_ring.c:900-922 | for rates of any size and sign: the 16-bit sum, which is the true byte rate if and only if that has sixteen bits, the least rate compared as unsigned, each enabled sensor's tick counter as often as its rate goes into 200, everything else kept, and -EINVAL exactly when an enabled sensor has no rate |
| Batch.TicksOfPeriod | kernel/drivers/staging/iio/imu/inv_mpu/inv_mpu_ring.c:794-919 | that counter is the chip's own number of ticks between two samples, for rates of 1 to 200; exactly 200 / rate when the rate divides, and zero above 200 |
| Batch.LeastRate | kernel/drivers/staging/iio/imu/inv_mpu/inv_mpu_ring.c:902-911 | no enabled sensor has a smaller rate, and one has this one, unless it is 200 |
| Batch.Setup.BatchmodeCalc | kernel/drivers/staging/iio/imu/inv_mpu/inv_mpu_ring.c:172-191 | the timeout is raised to one period of the slowest rate and no further; the counter is the largest number of 5 ms ticks within it, or within the cap of 992 bytes; the on flag |
| Batch.Setup.SetDmpSysfs | kernel/drivers/staging/iio/imu/inv_mpu/inv_mpu_ring.c:884-922 | the whole set-up, for all rates: every batch of the counter it leaves, whatever the phase of the rate counters, stays within a limit if and only if the rounded-up samples do; for dividing rates with overflow off, the first batch fits 992 bytes if and only if the cap sees the demand, and then every later one fits with one sample of each sensor more |
| Batch.EveryBatch | kernel/drivers/staging/iio/imu/inv_mpu/inv_mpu_ring.c:794-805 | for all rates and limits: all windows of n ticks stay within the limit if and only if the sum of size * ceil(n / period) over the enabled sensors does |
| Batch.MadeAtMostWorst | kernel/drivers/staging/iio/imu/inv_mpu/inv_mpu_ring.c:794-805 | no window makes more than that sum |
| Batch.WorstIsMade | kernel/drivers/staging/iio/imu/inv_mpu/inv_mpu_ring.c:794-805 | and one makes exactly that: from one tick before all sensors sample together |
| Batch.DividerBounds | kernel/drivers/staging/iio/imu/inv_mpu/inv_mpu_ring.c:798-798 | the truncated divider of a rate of any size and sign |
| Batch.BatchFits | kernel/drivers/staging/iio/imu/inv_mpu/inv_mpu_ring.c:172-191 | for dividing rates and overflow off, from the settings alone: the first batch is at most 992 bytes if and only if the 32-bit product does not hide the demand from the cap, and then every later one at most 992 and one sample of each enabled sensor |
| Batch.SecondBatchFillsFifo | kernel/drivers/staging/iio/imu/inv_mpu/inv_mpu_ring.c:172-191 | six sensors at 5 Hz and 5000 ms: 960 bytes in the first batch, 1024 in the second |
| Batch.WrappedBatchOverflows | kernel/drivers/staging/iio/imu/inv_mpu/inv_mpu_ring.c:180-182 | a timeout whose product wraps to 64, and whose batch overruns the FIFO |
| Batch.RoundedRateOverflows | kernel/drivers/staging/iio/imu/inv_mpu/inv_mpu_ring.c:798-798 | a gyro at 150 Hz runs at 200, and every batch of 826 ms, which the cap lets through, has 1320 bytes |
| Batch.ByteRateVanishes | kernel/drivers/staging/iio/imu/inv_mpu/inv_mpu_ring.c:902-918 | a gyro rate of 8192 makes a byte rate of zero |
| Batch.ProducedBounds | kernel/drivers/staging/iio/imu/inv_mpu/inv_mpu_ring.c:794-805 | with dividing rates the first n ticks make what n times the byte rate promises less at most one sample of each sensor, and any n ticks at most one sample of each more |
| Records.EncodesAppend | kernel/drivers/staging/iio/imu/inv_mpu/inv_mpu_ring.c:41-108 | a buffer stands for its records one after the other, unset bytes free |
| Reader.OneOfRecord | mpl/software/simple_apps/stress_iio/stress_iio.c:784-875 | the decode switch reads every record the driver can push back to its own sensor's kind of report, with its values and time, whatever follows |
| Reader.OneOfBeginning | mpl/software/simple_apps/stress_iio/stress_iio.c:784-875 | of an incomplete record the reader waits, except of a step indicator, which it overruns |
| Reader.ReadBack | mpl/software/simple_apps/stress_iio/stress_iio.c:783-881 | a whole buffer is read back, in order and with nothing left |
| Reader.ReaderInvertsDriver | mpl/software/simple_apps/stress_iio/stress_iio.c:752-881 | over any reads at multiples of eight bytes the reports are exactly the records pushed, in order, if and only if no read ends inside a step indicator |
| Reader.CutIndicatorLost | mpl/software/simple_apps/stress_iio/stress_iio.c:861-877 | a step indicator read as 8 and 8 bytes loses the reader; read as 16 it does not |
| Reader.Thread.Decode | mpl/software/simple_apps/stress_iio/stress_iio.c:783-877 | the decode loop over the buffer is the reading function; a step indicator cut short is reported with the bytes an earlier read left behind the end |
| Reader.Thread.ReadData | mpl/software/simple_apps/stress_iio/stress_iio.c:752-881 | one round of the thread: carried bytes and new bytes decoded together, less than 24 bytes carried on; after a cut step indicator the carry is -8 |
| Reader.Thread.ReadRounds | mpl/software/simple_apps/stress_iio/stress_iio.c:752-881 | round after round until it loses its place, the thread reports the reading of the chunks one behind the other |
| Pipeline.EndToEnd | kernel/drivers/staging/iio/imu/inv_mpu/inv_mpu_ring.c:1421-1563 | chip packets, however the FIFO is cut and the IIO buffer is read, reach the user as exactly the reports they mean |
| Pipeline.DriveAndRead | kernel/drivers/staging/iio/imu/inv_mpu/inv_mpu_ring.c:1421-1563 | the same on the running driver and the running thread: the thread keeps its place, and has reported exactly what the packets mean, if and only if no read ends inside a step indicator |
| Pipeline.ParsePushable | kernel/drivers/staging/iio/imu/inv_mpu/inv_mpu_ring.c:1477-1547 | whatever bytes arrive, every record pushed is one that the reader knows, and its header names its sensor |
| DmpMemory.Chip.MemoryWrite | kernel/drivers/staging/iio/imu/inv_mpu/inv_mpu_misc.c:284-345 | a burst inside one bank equals a write to flat memory; a failing one changes nothing outside its window; 512 bytes or more are refused |
| DmpMemory.Chip.MemoryRead | kernel/drivers/staging/iio/imu/inv_mpu/inv_mpu_misc.c:347-409 | a burst inside one bank reads flat memory |
| DmpMemory.Chip.WriteUnaligned | kernel/drivers/staging/iio/imu/inv_mpu/inv_mpu_misc.c:411-439 | too long or too high is refused; otherwise one burst if it stays in a bank and two if not, zero exactly when no transfer fails, and then the flat write |
| DmpMemory.Chip.LoadFirmware | kernel/drivers/staging/iio/imu/inv_mpu/inv_mpu_misc.c:1189-1220 | zero exactly when no transfer fails; then byte i of the image is at 0x20 + i and all other memory is unchanged; failing, only the image's window may differ |
| DmpMemory.Chip.VerifyFirmware | kernel/drivers/staging/iio/imu/inv_mpu/inv_mpu_misc.c:1222-1251 | zero if and only if no read fails and memory from bank 1 on is the rest of the image; a mismatch is -EINVAL |
| DmpMemory.Chip.ReadFirmware | kernel/drivers/staging/iio/imu/inv_mpu/inv_mpu_misc.c:1937-1982 | the read attribute returns flat memory from address zero |
| DmpMemory.Chip.Download | kernel/drivers/staging/iio/imu/inv_mpu/inv_mpu_misc.c:1898-1903 | load, verify and read back: on a bus without faults always accepted, and the image comes back |
| DmpMemory.CheckIsPartial | kernel/drivers/staging/iio/imu/inv_mpu/inv_mpu_misc.c:1231-1233 | memory holds the image if and only if the check accepts it and the 224 bytes it never reads are right too |
| DmpMemory.CorruptFirstBankAccepted | kernel/drivers/staging/iio/imu/inv_mpu/inv_mpu_misc.c:1231-1233 | a memory that does not hold an image of 225 bytes and is accepted |
| Orientation.FieldsOfScalar | mpl/software/core/mllite/ml_math_func.c:586-605 | each row's column and sign come back from the packed scalar |
| Orientation.ConvertToBody | mpl/software/core/mllite/ml_math_func.c:612-617 | with the code of any matrix of unit rows the output is the matrix-vector product (modulo 2^32) |
| Orientation.ConvertToChip | mpl/software/core/mllite/ml_math_func.c:624-629 | with the code of any signed permutation the output is the product with the transposed matrix |
| Orientation.BodyIsProduct | mpl/software/core/mllite/ml_math_func.c:612-617 | with the scalar of a matrix of unit rows, conversion to body is the matrix-vector product (modulo 2^32) |
| Orientation.ChipIsTransposedProduct | mpl/software/core/mllite/ml_math_func.c:624-629 | for a signed permutation, conversion to chip is the product with the transposed matrix |
| Orientation.ConversionsAreInverse | mpl/software/core/mllite/ml_math_func.c:612-629 | the two conversions undo each other, on all vectors and whatever the output held, if and only if no two columns coincide |
| Orientation.PermutationsAreDistinct | mpl/software/core/mllite/ml_math_func.c:586-605 | the codes with different columns are exactly those of signed permutations |
| Orientation.CheckedInRange | mpl/software/core/mllite/data_builder.c:219-233 | the orientation check keeps exactly the codes that are safe to index with, and makes any other one that of the identity |
| Orientation.KnownCodes | mpl/software/core/mllite/ml_math_func.c:586-605 | the codes of the identity and of a matrix that turns and mirrors |
| Orientation.CheckKeepsClashes | mpl/software/core/mllite/data_builder.c:219-233 | it does not keep out codes that read one axis twice |
| Orientation.ConvertToBodyWithScale | mpl/software/core/mllite/ml_math_func.c:639-649 | the same product as ConvertToBody, each number times the sensitivity in Q30 |
| Orientation.KernelAgrees | kernel/drivers/staging/iio/imu/inv_mpu/inv_mpu_misc.c:1478-1487 | the kernel's unsigned 64-bit multiplication equals the library's signed one on all inputs |
| Orientation.AccelBiasIsHalf | mpl/software/core/mllite/data_builder.c:983-989 | the accelerometer bias for the DMP is half of the matrix product, rounded down |
| Orientation.SetAccelBiasDmp | kernel/drivers/staging/iio/imu/inv_mpu/inv_mpu_misc.c:1619-1647 | the driver's own loops send to the chip, as three big-endian words, exactly the library's bias vector |
| Orientation.BeWordsRoundTrip | kernel/drivers/staging/iio/imu/inv_mpu/inv_mpu_misc.c:1641-1643 | the words come back from their bytes |
| DataBuilder.Builder.constructor | mpl/software/core/mllite/data_builder.c:151-169 | no callbacks, all statuses zero |
| DataBuilder.Builder.RegisterDataCb | mpl/software/core/mllite/data_builder.c:1273-1317 | a known function or priority, or a twenty-first callback, is rejected and changes nothing; else the callback is inserted by priority; the array stays sorted with unique functions |
| DataBuilder.Builder.UnregisterDataCb | mpl/software/core/mllite/data_builder.c:1330-1348 | the callback is taken out and the rest keeps its order; an unknown function changes nothing |
| DataBuilder.Builder.ExecuteOnData | mpl/software/core/mllite/data_builder.c:1356-1396 | calls exactly the callbacks whose mask meets the sensors with an unseen sample, by increasing priority, and returns the first nonzero answer; afterwards no status says new-data, and contiguous is set where it was or where data was new |
| Callbacks.UnregisterUndoesRegister | mpl/software/core/mllite/data_builder.c:1273-1348 | registering and unregistering restores the list |
| Callbacks.RegisterUndoesUnregister | mpl/software/core/mllite/data_builder.c:1273-1348 | unregistering and registering again restores it too |
| Callbacks.RegistrationsCommute | mpl/software/core/mllite/data_builder.c:1273-1317 | the order of two registrations leaves no trace |
| Callbacks.SortedIsCanonical | mpl/software/core/mllite/data_builder.c:1273-1348 | a sorted list is determined by its contents |
| DataBuilder.Builder.SetContiguous | mpl/software/core/mllite/data_builder.c:1401-1447 | contiguous set where data is new, new-data cleared everywhere; pressure is only cleared |
| DataBuilder.Builder.BuildGyro | mpl/software/core/mllite/data_builder.c:1046-1064 | sets new-data, raw, sensor-on and calibrated, and no other flag changes; the status is the history's with one more sample |
| DataBuilder.Builder.BuildAccel | mpl/software/core/mllite/data_builder.c:1007-1037 | sets new-data, sensor-on and calibrated, and raw exactly if it was set or the sample is not calibrated; the same of the history |
| DataBuilder.Builder.BuildCompass | mpl/software/core/mllite/data_builder.c:1077-1111 | the same for the compass |
| DataBuilder.Builder.BuildTemp | mpl/software/core/mllite/data_builder.c:1119-1136 | sets new-data, raw and sensor-on |
| DataBuilder.Builder.BuildQuat | mpl/software/core/mllite/data_builder.c:1150-1190 | sets new-data, raw and sensor-on, and of six flags exactly those that its argument has |
| DataBuilder.Builder.BuildPressure | mpl/software/core/mllite/data_builder.c:1192-1196 | sets new-data and nothing else |
| DataBuilder.Builder.WasTurnedOff | mpl/software/core/mllite/data_builder.c:1201-1260 | that sensor's status is zero, the others are kept |
| SensorStatus.ContiguousMeansProcessed | mpl/software/core/mllite/data_builder.c:1007-1447 | on every run, for every sensor but pressure: contiguous if and only if some execute since the last turn-off or init saw a fresh sample |
| SensorStatus.NewDataMeansFresh | mpl/software/core/mllite/data_builder.c:1007-1447 | on every run: new-data if and only if there is a sample since the last turn-off or init that no execute has seen |
| SensorStatus.MarksAreSticky | mpl/software/core/mllite/data_builder.c:1007-1260 | on every run: any other flag is set if and only if some build since the last turn-off or init set it, flag by flag |
| SensorStatus.RawMeansUncalibrated | mpl/software/core/mllite/data_builder.c:1018-1108 | on every run, for accelerometer and compass: raw if and only if some build since the last turn-off or init was not calibrated |
| SensorStatus.QuaternionMeansGiven | mpl/software/core/mllite/data_builder.c:1174-1179 | on every run: each of the quaternion's six flags if and only if some build since the last turn-off or init had it |
| SensorStatus.PressureOnlyNew | mpl/software/core/mllite/data_builder.c:1192-1196 | the pressure status never holds anything but new-data |
| SensorStatus.NothingNewAfterExecute | mpl/software/core/mllite/data_builder.c:1440-1446 | no status says new-data after an execute |

## Left out

- I2C transfers, sleeps, locks, sysfs, power sequencing, probe and suspend, device tree, triggers: hardware and kernel plumbing. The FIFO's bytes, the time, the tick counter and whether a transfer fails are parameters.
- Tracking.TrackClock: asks that every measurement is followed by its adjustment, for which `Skipped.SkippedMeasurement` is the reason, and that nothing is flushed: a flush restarts the clock, but not the counter last read, which the chip restarts.
- Settling.Converges: the constants are not the least ones; the bound is for any mixture of shifts up to s.
- Service.ReadFifo: does not model the branch without DMP, low-power mode, a disabled buffer, a datum size of zero and the MPU3050; which guards an interrupt meets, and whether a reset's register writes succeed, are parameters.
- `inv_flush_batch_data` and the disabling of the buffer, which read the ticks too; the runs are of interrupts.
- Service.TimesOverRun: does not cover step-detector packets, whose times come from the chip, and a full FIFO or a reset to an earlier time, which date sensors back.
- A push into a full IIO buffer is lost in the source, which ignores the return value; here the buffer is unbounded, so Pipeline.EndToEnd and Pipeline.DriveAndRead assume that the reader keeps up.
- ClockLoop.TrackingErrorBounded: assumes a period at least the bound and below 2^32 minus it, so that the 32-bit interval does not wrap, and a momentum of zero at the start.
- Ring.Driver.ProcessBatchmode: a full FIFO requires a nonzero byte rate, by which the source divides.
- Ring.Driver.PushStepIndicator: pushes six unset payload bytes, as the source does from its uninitialised vector; they are arbitrary here.
- `read_data` of the compass and pressure slaves is any function of the six payload bytes that may fail.
- FifoTimes.TimesMoveForward: speaks of fixed periods; Service.TimesOverRun covers runs in which they change.
- Batch.EveryBatch: assumes that the chip takes the word it is given for its rate as unsigned, and that a step detector sends at most at its rate; its packets are events, and the chip's program is not part of this model.
- Reader.Thread.ReadData: starts with nothing carried, where the source's counter is uninitialised; its reads return multiples of eight bytes, as the IIO buffer does.
- Reader.Thread.Decode: does not model the printing.
- NewtonInverseRoot.InverseSqrt: requires a positive input; for others the source promises nothing.
- NewtonReciprocal.OneOverX: leaves out -2^31, whose negation overflows in C.
- ScalarPart.ComputeScalarPart: promises no length when a square or difference overflows 32 bits, which C leaves undefined; the model wraps.
- Storage.OneByteCorruptionRejected: leaves out the size field, which no checksum covers: the source trusts it.
- StorageManager.Manager.LoadMplStates: requires sizes inside the data and not negative; the source does not check them.
- StorageManager.Manager.Register: requires a total size below 2^31. Save callbacks write exactly the size they registered; load callbacks are recorded and their return value, which the source ignores, is not modelled.
- DmpMemory.Chip.WriteUnaligned: requires at least one byte; the key table is a parameter (the address).
- DmpMemory.Chip.LoadFirmware: requires an image of 224 bytes or more that fits 16-bit addresses; the driver admits only one size, 3035 bytes, and a CRC that is not modelled.
- Orientation.SetAccelBiasDmp: requires a matrix whose code has no index three; with a zero row the kernel indexes past the vector.
- SensorStatus.MarksAreSticky: status words are sets of their flags, which are distinct bits in data_builder.h; the accuracy bits in a build's argument are not modelled.
- DataBuilder.Builder.ExecuteOnData: the callbacks answer, but do not register, unregister or change statuses meanwhile.
- Sample values, calibration, soft iron, saved biases and timestamps of the data builder; `inv_get_6_axis_gyro_accel_timestamp` and `inv_get_9_axis_timestamp`.
- Floating point (quaternion and filter code), `hal_outputs.c`, `results_holder.c`, `start_manager.c`, `message_layer.c`, the IIO channel utilities, MPU3050 paths, self-test tables and firmware bytes: plain getters, tables or easy members.
