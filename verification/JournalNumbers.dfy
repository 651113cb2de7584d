/** The numbers of journal entries as text. */
module JournalNumbers {
  import opened Decimal
  import opened Ledger
  import opened LedgerInvariants

  /** The text of an entry's number: the sequence's prefix, and the number padded to six digits. */
  function NumberText(prefix: string, n: nat): string {
    prefix + PadStart(Print(n), 6)
  }

  lemma NumberTextInjective(prefix: string, m: nat, n: nat)
    ensures NumberText(prefix, m) == NumberText(prefix, n) ==> m == n
  {
    PaddedPrint(m, 6);
    PaddedPrint(n, 6);
    var s, t := NumberText(prefix, m), NumberText(prefix, n);
    assert s[|prefix|..] == PadStart(Print(m), 6) && t[|prefix|..] == PadStart(Print(n), 6);
  }

  /** No two entries ever carry the same number text, however far the numbers outgrow the padding. */
  lemma NumberTextsDiffer(b: Books, prefix: string, id: Id, other: Id)
    requires Inv(b) && id in b.entries && other in b.entries && id != other
    requires IsPosted(b.entries[id]) && IsPosted(b.entries[other])
    ensures NumberText(prefix, b.entries[id].number.value) != NumberText(prefix, b.entries[other].number.value)
  {
    NumbersAreGapless(b);
    var m, n := b.entries[id].number.value, b.entries[other].number.value;
    assert HasNumber(b, id, m) && HasNumber(b, other, n);
    hide Inv;
    NumberTextInjective(prefix, m, n);
  }
}
