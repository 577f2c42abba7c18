# vcf-info2format, modelled in Dafny

vcf-info2format copies selected INFO fields of a single-sample VCF into FORMAT
fields of its one sample, and optionally the QUAL score as well. The whole
program is one `main` in `src/main.rs`. This project models its transfer
engine, which has two stages and a driver:

* **Header planning** (`planner.dfy`). It refuses a run with nothing to do and
  a header whose sample count is not 1. It then scans the header records once,
  in order. Each INFO declaration whose ID is still requested is taken off the
  requested set, removed from the new header, and replaced by an appended
  FORMAT declaration built with the same Number, Type and Description. Its
  type goes into the field-type map.
  * A missing key or an unknown Type stops the run.
  * Then the requested fields are walked in argument order, and the first one
    without a type stops the run.
  * With `-q`, the fixed QUAL FORMAT declaration is appended last.

  `PlanSpec` states the outcome declaratively. The method `PlanHeader` and
  its loop `ScanHeader` compute it step by step, and are proved equal to it.
* **The per-record transfer** (`transfer.dfy`). It walks the field-type map
  in key order, which is the iteration order of the program's `BTreeMap`.
  * Each field's INFO value is read with its planned type, captured, and
    cleared from INFO.
  * A Flag is always captured as 1 or 0, and is cleared only when set.
  * Integer, Float and String values are captured and cleared only when
    present.
  * The captured values are then pushed as FORMAT values in key order, with
    QUAL last.

  `TransferSpec` states the outcome. The methods `ExtractFields` and
  `WriteFormats` run the two loops and `TransferRecord` chains them.
* **The driver** (`driver.dfy`). It plans, then processes the input stream
  record by record. It counts every parsed record and stops at the first item
  the reader cannot parse. It also stops at the first record whose INFO value
  does not have its declared type.

The datatypes of `vcf.dfy` model the htslib objects as plain values:

* A header is its ordered records (INFO and FORMAT declarations as key/value
  maps, anything else as text) plus a sample count.
* A record is its INFO map, its ordered FORMAT fields of the one sample, and
  QUAL.
* A 32-bit float is kept as its bit pattern, because floats are only copied.
* The FORMAT declaration text that the program formats is modelled in
  `header_line.dfy`, together with a parser that reads it back.
* `ordering.dfy` holds the string order of Rust's `BTreeMap`, a
  code-point-wise lexicographic order that equals byte-wise order on UTF-8.
  It also holds the method that lists a map's keys in that order.

The properties are proved in `plan_properties.dfy`, `transfer_properties.dfy`
and `driver.dfy`.

Where the code and the description of the program disagree, the model follows
the code:

* A missing requested field stops the run naming only the first one, in
  argument order, not all of them (src/main.rs:116-121).
* A Flag is cleared only when it was set. As an unset Flag is absent from the
  INFO map anyway, after the transfer the field is absent from INFO in both
  cases.
* A non-Flag field absent from a record adds no FORMAT value. A FORMAT value
  the record already had under that ID is kept.
* An unparsable record stops the run before it is counted
  (src/main.rs:142-151).

One consequence comes from the model rather than from the code. `push_record`
is modelled as appending a header record (see "Left out"). So when the input
already had a FORMAT declaration with a relocated field's ID, that
declaration stays beside the new one, and the count is "one more" rather than
"exactly one". What htslib does with such a duplicate is not modelled.

## Model

| member | source | states |
|---|---|---|
| Vcf.RemoveInfo | src/main.rs:92 | removing a field's INFO declaration drops exactly the INFO records with that ID and keeps every other record, in its order and with its repetitions: the result is the header filtered by `Without` on that one ID |
| Vcf.PushFormat | src/main.rs:202-217 | after a push the FORMAT value of the ID is the pushed one and every other ID reads as before; a new ID is appended at the end, and an existing one keeps the length of the fields |
| Vcf.PushFormatInPlace | src/main.rs:202-217 | pushing an ID the fields already hold overwrites the first field with that ID in place and changes nothing else |
| Ordering.SortedKeys | src/main.rs:158 | the keys of a map listed in BTreeMap order: strictly ascending, exactly the map's keys, and the unique such sequence |
| Ordering.SortedUnique | src/main.rs:158 | two strictly ascending sequences with the same elements are equal, so the iteration order of the field-type map is determined by its keys |
| HeaderLine.FormatLineRoundTrip | src/main.rs:94-96 | the `##FORMAT=<ID=..,Number=..,Type=..,Description=..>` text written for a relocated field parses back to the same ID, Number, Type and Description when the first three hold no comma |
| HeaderLine.FormatLineInjective | src/main.rs:94-96 | two relocated declarations with different values never produce the same FORMAT text |
| HeaderLine.QualLineIsQualDecl | src/main.rs:124 | the fixed QUAL text is the declaration ID=QUAL, Number=1, Type=Float with its description |
| Planner.ParseType | src/main.rs:100-109 | the declared Type text maps to Flag, Integer, Float or String exactly when it is that word, and to nothing otherwise |
| Planner.Resolve | src/main.rs:94-109 | resolution succeeds exactly when Number, Type and Description are present and Type is a known word. It then yields the FORMAT declaration with the relocated ID and those three values, typed by the Type. Otherwise it fails with the first missing key in the order Number, Type, Description, or with UnknownType carrying the Type text |
| Planner.ScanHeader | src/main.rs:84-114 | the header scan, which shrinks the requested set, removes INFO declarations, appends FORMAT declarations and records types, yields exactly ScanSpec, including the first resolution error |
| Planner.PlanHeader | src/main.rs:58-127 | planning as the program runs it yields exactly PlanSpec: refusals, scan, first missing field in argument order, QUAL declaration last |
| Planner.FirstMissingAt | src/main.rs:116-121 | the missing-field check names the first argument without a type, or nothing when all have one |
| Planner.ResolveErrorPersists | src/main.rs:105-108 | once a relocation fails to resolve, the whole plan fails with that error whatever the later records are |
| PlanProperties.NoWorkRefused | src/main.rs:58-61 | the run is refused with NoFields exactly when no field and no QUAL is requested |
| PlanProperties.NotSingleSampleRefused | src/main.rs:78-81 | once there is work, the run is refused with NotSingleSample exactly when the sample count is not 1 |
| PlanProperties.RelocationsFacts | src/main.rs:87-91 | the relocated declarations are exactly the requested IDs that have an INFO declaration, each once, each taken from its first declaration; later declarations with the same ID are ignored |
| PlanProperties.HeaderKept | src/main.rs:84-98 | a successful plan keeps every other header record in order, ahead of the added ones, and leaves no INFO declaration of a relocated field |
| PlanProperties.RelocatedOnce | src/main.rs:87-98 | each relocated ID gains exactly one FORMAT declaration (two when it is QUAL and QUAL is requested). That declaration carries the Number, Type and Description of the ID's first INFO declaration, and sits in the appended part of the header, after the kept records |
| PlanProperties.DeclsCount | src/main.rs:94-98 | the declarations added for distinct relocated IDs contain exactly one FORMAT declaration per relocated ID and none for any other ID |
| PlanProperties.TypeMap | src/main.rs:100-121 | the type map's keys are exactly the requested fields, each mapped to the Type of its first INFO declaration |
| PlanProperties.UnknownTypeAborts | src/main.rs:100-109 | a requested field whose first declaration has an unknown Type makes planning fail, whatever its other keys, and an UnknownType failure names such a field's Type |
| PlanProperties.MissingFieldAborts | src/main.rs:116-121 | when the scan succeeds, planning fails naming the first requested field, in argument order, that has no INFO declaration |
| PlanProperties.MissingInfoNamesFirst | src/main.rs:116-121 | a MissingInfo failure names an undeclared field all of whose predecessors in the argument list are declared |
| PlanProperties.ResolveAllFirstError | src/main.rs:94-109 | a failed resolution reports the error of the first relocation, in header order, that cannot be resolved |
| PlanProperties.QualDeclaredLast | src/main.rs:123-127 | with QUAL requested, the last header record is the QUAL declaration |
| PlanProperties.NoQualDeclared | src/main.rs:123-127 | without QUAL requested, a QUAL FORMAT declaration is added only for a relocated INFO field named QUAL |
| PlanProperties.ReplanFails | src/main.rs:87-121 | planning is not idempotent: planning the output header with the same fields fails on the first field, which is no longer INFO |
| Transfer.ReadTag | src/main.rs:160-191 | reading one planned field: a value of the wrong type fails naming the field, a captured field gives its value (Flag as 1 or 0), an absent non-Flag field gives nothing |
| Transfer.ExtractFields | src/main.rs:157-192 | the extraction loop fails on the first field, in key order, whose value has the wrong type, and otherwise removes every planned field from INFO and captures exactly the fields `Captured` describes |
| Transfer.WriteFormats | src/main.rs:194-218 | the re-insertion loop pushes the captured values in key order, each as its FORMAT value, then QUAL, and changes nothing else of the record |
| Transfer.TransferRecord | src/main.rs:156-218 | one record's transfer as the program runs it yields exactly TransferSpec |
| TransferProperties.TransferFailsIff | src/main.rs:160-191 | a record's transfer fails exactly when some planned field present in INFO has a value of the wrong type |
| TransferProperties.TransferFailsOnLeast | src/main.rs:158-191 | a failing transfer names a mistyped field, and the least such field in key order |
| TransferProperties.TransferClearsInfo | src/main.rs:161-191 | after the transfer INFO holds exactly the record's INFO fields outside the plan, with unchanged values, and QUAL is unchanged |
| TransferProperties.FlagTransferred | src/main.rs:161-203 | a Flag field becomes the FORMAT integers `[1]` when it was set and `[0]` otherwise |
| TransferProperties.ValueTransferred | src/main.rs:170-212 | a present Integer, Float or String field becomes the same sequence as FORMAT value; an absent one leaves that FORMAT ID as it was |
| TransferProperties.QualTransferred | src/main.rs:215-218 | with QUAL requested, the FORMAT value QUAL is the one-element float sequence of the record's QUAL |
| TransferProperties.OtherFormatKept | src/main.rs:198-218 | FORMAT IDs outside the plan and other than QUAL keep their values |
| TransferProperties.FormatAppended | src/main.rs:198-218 | on a record with none of the IDs in FORMAT yet, the FORMAT fields become the old ones followed by one field per captured value, in key order, and then QUAL |
| TransferProperties.PushedInKeyOrder | src/main.rs:158-198 | the pushed IDs are strictly ascending and are exactly the fields captured: the Flags, and the other fields present in INFO |
| Driver.ProcessRecords | src/main.rs:139-223 | the record loop as the program runs it, with early returns and the counter, yields exactly StreamOf |
| Driver.Run | src/main.rs:58-224 | a run, planning then the record loop with the planned types, yields exactly RunSpec |
| Driver.StreamErrorPersists | src/main.rs:144-147 | once the loop has stopped, the rest of the stream changes nothing |
| Driver.StreamWritten | src/main.rs:140-222 | the records written are the transfers of the first items of the stream, in order, each a parsed record; a loop that runs to the end writes and counts every record |
| Driver.StreamCompletes | src/main.rs:140-222 | the loop runs to the end exactly when every item parses and its transfer succeeds |
| Driver.StreamStops | src/main.rs:142-151 | an early stop is at the item after the last record written: an unparsable item is not counted, a failing transfer is counted, with its error |
| Driver.PlanFailureReadsNothing | src/main.rs:58-127 | a run whose planning fails writes no header, reads no record and reports the planning error; otherwise the planned header is written |
| Driver.RunRecords | src/main.rs:139-224 | after a successful plan every written record is the transfer of the parsed record at its position; the count is the records read, all of them on completion |

## Left out

- Argument parsing with clap and the `Args` struct (src/main.rs:9-35): the requested fields, the QUAL switch and the input are parameters of `Driver.Run`.
- Logging and the verbosity level (src/main.rs:45-56), and every `trace!`/`debug!`/`error!` message: they do not affect the data.
- The progress trace (src/main.rs:152-154): it is only observed. A `--verbose-report` of 0 would make its `%` panic on the first record, and that panic is not modelled.
- The counter's 32-bit width: `n_records` is a `nat` here, so wrap-around after 2^32 records is not modelled.
- Opening the reader and writer, and writing records (src/main.rs:68-74, 130-136, 222): the input is a sequence of parsed records or parse failures, and the output is the sequence of records written. Failures of `output.write` and of opening the writer are not modelled.
- `output.translate` (src/main.rs:195) is a no-op on the abstract record.
- htslib internals: `remove_info` is modelled as removing every INFO record with that ID. `push_record` is modelled as appending. The record accessors fail (the program's `unwrap`) only on a value of the wrong type. The `clear_info_*` and `push_format_*` calls always succeed in the model, so their `expect` failures are not modelled.
- A FORMAT push is modelled as replacing a field with that ID in place, or appending it. Keeping FORMAT as one ordered list of fields of the one sample is not htslib's byte layout.
- Floating point: INFO floats and QUAL are 32-bit patterns that are only copied.
- Header text: the parser in `header_line.dfy` only reads back the declaration this program writes, as the round-trip lemma shows. It does not model htslib's header parser, quoting or escaping. FormatLineRoundTrip needs ID, Number and Type free of commas.
- `QualLine` is written as `FormatLine` applied to the QUAL values rather than as one string literal. It spells the same text as src/main.rs:124. A proof that a 105-character literal equals that concatenation is too costly for the solver.
- Strings are sequences of characters ordered code point by code point, so ordering and comparison are not tied to a particular encoding.
