/** `auto_tag`: keep the words the part-of-speech tagger labelled as a
    singular noun, a plural noun or an adjective, lower-case them and drop
    duplicates.  The tagger itself is not modelled: its output, a sequence of
    (word, label) pairs, is the input here. */
module Tagging {
  import opened Text
  import opened Seqs

  /** One word of the tagger's output with its part-of-speech label. */
  datatype Token = Token(word: string, pos: string)

  /** The labels whose words become tags. */
  const KeptLabels: seq<string> := ["NN", "NNS", "JJ"]

  predicate IsKept(t: Token) {
    t.pos in KeptLabels
  }

  /** The set the source builds with its comprehension before turning it into
      a list. */
  function TagSet(tagged: seq<Token>): set<string> {
    set i | 0 <= i < |tagged| && IsKept(tagged[i]) :: Lower(tagged[i].word)
  }

  /** The tags of one text, one entry per distinct lowered kept word.  The
      source lists a set, so its order is unspecified; this model lists each
      tag where its last occurrence in `tagged` is. */
  function AutoTag(tagged: seq<Token>): (tags: seq<string>)
    ensures Distinct(tags)
    ensures |tags| <= |tagged|
    ensures forall t :: t in tags ==> IsLower(t)
    ensures forall i :: 0 <= i < |tagged| && IsKept(tagged[i]) ==> Lower(tagged[i].word) in tags
    ensures forall t :: t in tags ==>
              exists i :: 0 <= i < |tagged| && IsKept(tagged[i]) && Lower(tagged[i].word) == t
  {
    if tagged == [] then []
    else
      var rest := AutoTag(tagged[1..]);
      var head := tagged[0];
      if IsKept(head) && Lower(head.word) !in rest then [Lower(head.word)] + rest else rest
  }

  /** The tag list holds exactly the elements of the source's set. */
  lemma AutoTagEnumeratesTagSet(tagged: seq<Token>)
    ensures forall t :: t in AutoTag(tagged) <==> t in TagSet(tagged)
  {
  }

  /** No tags come out exactly when no word carries a kept label; in
      particular an empty tagger output gives no tags. */
  lemma AutoTagEmptyIff(tagged: seq<Token>)
    ensures AutoTag(tagged) == [] <==> forall i :: 0 <= i < |tagged| ==> !IsKept(tagged[i])
  {
  }

  /** A word with any other label contributes nothing: removing it leaves the
      tags unchanged. */
  lemma {:induction false} AutoTagIgnoresOtherLabels(a: seq<Token>, t: Token, b: seq<Token>)
    requires !IsKept(t)
    ensures AutoTag(a + [t] + b) == AutoTag(a + b)
    decreases |a|
  {
    if a == [] {
      assert a + [t] + b == [t] + b;
      assert ([t] + b)[1..] == b;
      assert a + b == b;
    } else {
      AutoTagIgnoresOtherLabels(a[1..], t, b);
      assert (a + [t] + b)[1..] == a[1..] + [t] + b;
      assert (a + b)[1..] == a[1..] + b;
      assert (a + [t] + b)[0] == (a + b)[0];
    }
  }
}
