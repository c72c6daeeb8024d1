/**
 * The matcher for a record separator made of two characters, such as "\r\n".
 * Its `Trim` removes one trailing separator from a record's text.
 */
module RecordSeparators {

  /** True when `value` ends with the two characters `first`, `second`. */
  predicate EndsWithPair(value: string, first: char, second: char)
  {
    |value| >= 2 && value[|value| - 2] == first && value[|value| - 1] == second
  }

  datatype TwoCharacterRecordSeparatorMatcher = TwoCharacterRecordSeparatorMatcher(first: char, second: char)
  {
    /** The separator as text. */
    function Separator(): string
    {
      [first, second]
    }

    /** The number of characters the separator occupies. */
    function Size(): (n: nat)
      ensures n == |Separator()|
    {
      2
    }

    /**
     * Strips one trailing separator. The result is a prefix of `value`; what was
     * removed is either nothing or exactly one separator, and it is the separator
     * precisely when `value` ends with it.
     */
    function Trim(value: string): (r: string)
      ensures r <= value
      ensures EndsWithPair(value, first, second) ==> r + Separator() == value
      ensures !EndsWithPair(value, first, second) ==> r == value
      ensures |value| - |r| == 0 || |value| - |r| == Size()
    {
      var length := |value|;
      if length >= 2 && value[length - 2] == first && value[length - 1] == second then
        value[..length - 2]
      else
        value
    }
  }

  /** Trim undoes appending a separator. */
  lemma TrimAppended(m: TwoCharacterRecordSeparatorMatcher, s: string)
    ensures m.Trim(s + m.Separator()) == s
  {
    var v := s + m.Separator();
    assert EndsWithPair(v, m.first, m.second);
    assert v[..|v| - 2] == s;
  }

  /** A text not ending with the separator, the empty text and one-character texts included, is left alone. */
  lemma TrimWithoutSeparator(m: TwoCharacterRecordSeparatorMatcher, s: string)
    requires |s| < 2 || s[|s| - 2..] != m.Separator()
    ensures m.Trim(s) == s
  {
  }

  /** Only one separator is removed: of two trailing separators, one remains. */
  lemma TrimRemovesOne(m: TwoCharacterRecordSeparatorMatcher, s: string)
    ensures m.Trim(s + m.Separator() + m.Separator()) == s + m.Separator()
  {
    TrimAppended(m, s + m.Separator());
  }

  /** Trimming is a right inverse: appending the separator back to a trimmed text that lost it restores it. */
  lemma TrimThenAppend(m: TwoCharacterRecordSeparatorMatcher, s: string)
    requires m.Trim(s) != s
    ensures m.Trim(s) + m.Separator() == s
    ensures |m.Trim(s)| == |s| - m.Size()
  {
  }
}
