/** The term profile of one document or of the query (adb/Term.java). */
module Terms {
  /** A profile's value: relevance flag, token count before stop-word removal, word frequencies. */
  datatype Profile = Profile(isRelevant: bool, length: int, tf: map<string, int>)

  class Term {
    var isRelevant: bool
    var length: int
    /** Word to frequency in this document. */
    var tf: map<string, int>

    constructor ()
      ensures GetTf() == map[] && GetLength() == 0 && !GetIsRelevant()
    {
      tf := map[];
      length := 0;
      isRelevant := false;
    }

    function GetLength(): int
      reads this
    {
      length
    }

    method SetLength(length: int)
      modifies this`length
      ensures GetLength() == length
    {
      this.length := length;
    }

    function GetIsRelevant(): bool
      reads this
    {
      isRelevant
    }

    method SetIsRelevant(relevant: bool)
      modifies this`isRelevant
      ensures GetIsRelevant() == relevant
    {
      isRelevant := relevant;
    }

    function GetTf(): map<string, int>
      reads this
    {
      tf
    }

    method SetTf(tf: map<string, int>)
      modifies this`tf
      ensures GetTf() == tf
    {
      this.tf := tf;
    }

    ghost function Value(): Profile
      reads this
    {
      Profile(isRelevant, length, tf)
    }
  }
}
