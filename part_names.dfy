/**
 * Names of the dataset fragments. The splitter writes
 * `aozora_combined_part{i:02d}.parquet`, the browser loader fetches
 * `aozora_combined_part${padStart(2, '0')}.parquet` and registers the bytes
 * under the virtual name `part${i}.parquet`.
 */
module PartNames {
  import opened Strings

  /** Number of fragments the browser loader reads. */
  const TotalParts: nat := 6

  const FilePrefix: string := "aozora_combined_part"
  const FileSuffix: string := ".parquet"

  /** Published file name of fragment `i`. */
  function PartFileName(i: nat): string
  {
    FilePrefix + Pad2(i) + FileSuffix
  }

  /** The padded index can be read back out of a file name. */
  lemma PartFileNameIndex(i: nat)
    ensures var name := PartFileName(i);
      var digits := name[|FilePrefix|..|name| - |FileSuffix|];
      AllDigits(digits) && DigitsValue(digits) == i
  {
    var name := PartFileName(i);
    assert name[|FilePrefix|..|name| - |FileSuffix|] == Pad2(i);
    Pad2RoundTrip(i);
  }

  /** Distinct fragments have distinct file names. */
  lemma PartFileNameInjective(i: nat, j: nat)
    requires PartFileName(i) == PartFileName(j)
    ensures i == j
  {
    PartFileNameIndex(i);
    PartFileNameIndex(j);
  }

  /** Name under which fragment `i` is registered in the query engine. */
  function VirtualName(i: nat): string
  {
    "part" + DecimalString(i) + FileSuffix
  }

  /** Distinct fragments are registered under distinct virtual names. */
  lemma VirtualNameInjective(i: nat, j: nat)
    requires VirtualName(i) == VirtualName(j)
    ensures i == j
  {
    var a, b := VirtualName(i), VirtualName(j);
    assert a[4..|a| - |FileSuffix|] == DecimalString(i);
    assert b[4..|b| - |FileSuffix|] == DecimalString(j);
    DecimalInjective(i, j);
  }
}
