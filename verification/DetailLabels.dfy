/** The headings of the product details block: a camel-case key becomes a
    capitalised label with a space before each inner capital. */
module DetailLabels {
  import opened Seqs
  import opened Text

  /** `key.charAt(0).toUpperCase() + key.slice(1).replace(/([A-Z])/g, " $1").trim()` */
  function FormatLabel(key: string): (heading: string)
    ensures key == [] <==> heading == []
    ensures key != [] ==> heading[0] == UpperChar(key[0])
  {
    if key == [] then [] else [UpperChar(key[0])] + Trim(SpaceBeforeCapitals(key[1..]))
  }

  /** For a camel-case key without white space whose second character is not a capital, the
      label is the capitalised first letter followed by the rest with a space before each capital;
      removing those spaces gives back the rest of the key. */
  lemma CamelCaseLabel(key: string)
    requires key != []
    requires forall k :: 0 <= k < |key| ==> !IsWhiteSpace(key[k])
    requires |key| >= 2 ==> !IsUpper(key[1])
    ensures FormatLabel(key) == [UpperChar(key[0])] + SpaceBeforeCapitals(key[1..])
    ensures RemoveSpaceBeforeCapitals(FormatLabel(key)[1..]) == key[1..]
  {
    var rest := key[1..];
    if rest != [] {
      SpaceBeforeCapitalsEnds(rest);
    }
    TrimUnchanged(SpaceBeforeCapitals(rest));
    SpaceBeforeCapitalsRoundTrip(rest);
    assert FormatLabel(key)[1..] == SpaceBeforeCapitals(rest);
  }

  /** A two-word camel-case key such as `medidasProducto` or `pesoBruto` is labelled with its
      first letter capitalised and one space before the second word ("Medidas Producto"). */
  lemma TwoWordLabel(head: char, tail: string, word: string)
    requires tail != [] && !IsWhiteSpace(tail[0])
    requires forall k :: 0 <= k < |tail| ==> !IsUpper(tail[k])
    requires word != [] && IsUpper(word[0]) && forall k :: 1 <= k < |word| ==> !IsUpper(word[k])
    requires !IsWhiteSpace(word[|word| - 1])
    ensures FormatLabel([head] + tail + word) == [UpperChar(head)] + tail + [' '] + word
  {
    var key := [head] + tail + word;
    assert key[1..] == tail + word;
    SpacedTwoWords(tail, word);
    TrimUnchanged(tail + [' '] + word);
    Assoc([UpperChar(head)], tail + [' '], word);
    Assoc([UpperChar(head)], tail, [' ']);
  }
}
