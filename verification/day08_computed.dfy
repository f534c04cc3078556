/**
  The day-08 computed-property lesson: a root instance holding a `message`
  and a computed `reverseMessage` that splits the message into one-unit
  strings, reverses that array and joins it back together.

  JavaScript strings are sequences of UTF-16 code units and `split('')`
  splits between code units, so the message is modelled as a sequence of
  code units rather than as a Dafny `string` of Unicode scalar values.
 */
module ComputedExample {

  /** One UTF-16 code unit. */
  newtype CodeUnit = x: int | 0 <= x < 0x1_0000

  /** The UTF-16 encoding of one character: a scalar value below 0x10000 is
      one code unit, any other a high surrogate followed by a low
      surrogate. */
  function EncodeChar(ch: char): (units: seq<CodeUnit>)
    ensures 1 <= |units| <= 2
  {
    var c := ch as int;
    if c < 0x1_0000 then [c as CodeUnit]
    else [(0xD800 + (c - 0x1_0000) / 0x400) as CodeUnit,
          (0xDC00 + (c - 0x1_0000) % 0x400) as CodeUnit]
  }

  /** The UTF-16 encoding of a string, which is how a JavaScript string
      literal is stored. */
  function Utf16(s: string): (r: seq<CodeUnit>)
    ensures |s| <= |r| <= 2 * |s|
  {
    if |s| == 0 then [] else EncodeChar(s[0]) + Utf16(s[1..])
  }

  /** A string of Basic Multilingual Plane characters is one code unit per
      character, each equal to the character's scalar value. */
  lemma {:induction false} Utf16OfBmp(s: string)
    requires forall i | 0 <= i < |s| :: (s[i] as int) < 0x1_0000
    ensures |Utf16(s)| == |s|
    ensures forall i | 0 <= i < |s| :: Utf16(s)[i] as int == s[i] as int
  {
    if |s| > 0 {
      Utf16OfBmp(s[1..]);
      assert Utf16(s) == EncodeChar(s[0]) + Utf16(s[1..]);
    }
  }

  /** The instance's `data` object. */
  datatype State = State(message: seq<CodeUnit>)

  /** The data the instance is created with. */
  function Initial(): State {
    State(Utf16("Greetings!"))
  }

  /** `String.prototype.split('')`: one single-unit string per code unit. */
  function Split(s: seq<CodeUnit>): (parts: seq<seq<CodeUnit>>)
    ensures |parts| == |s|
    ensures forall i | 0 <= i < |s| :: parts[i] == [s[i]]
  {
    if |s| == 0 then [] else [[s[0]]] + Split(s[1..])
  }

  /** The number of code units in all the parts together. */
  function TotalLength(parts: seq<seq<CodeUnit>>): nat {
    if |parts| == 0 then 0 else |parts[0]| + TotalLength(parts[1..])
  }

  /** `Array.prototype.join('')`: the concatenation of the parts in order.
      Its length is the total length of the parts, and when every part is a
      single code unit, as after `split('')`, unit `i` of the result is the
      unit of part `i`. */
  function Join(parts: seq<seq<CodeUnit>>): (r: seq<CodeUnit>)
    ensures |r| == TotalLength(parts)
    ensures (forall i | 0 <= i < |parts| :: |parts[i]| == 1) ==>
              |r| == |parts| && forall i | 0 <= i < |parts| :: r[i] == parts[i][0]
  {
    if |parts| == 0 then [] else parts[0] + Join(parts[1..])
  }

  /** `Array.prototype.reverse`: element `i` of the result is element
      `|xs| - 1 - i` of the input. */
  function Reverse<T>(xs: seq<T>): (r: seq<T>)
    ensures |r| == |xs|
    ensures forall i {:trigger r[i]} | 0 <= i < |xs| :: r[i] == xs[|xs| - 1 - i]
  {
    if |xs| == 0 then [] else Reverse(xs[1..]) + [xs[0]]
  }

  /** Joining the pieces of a split gives back the split string. */
  lemma {:induction false} JoinSplit(s: seq<CodeUnit>)
    ensures Join(Split(s)) == s
  {
    if |s| > 0 {
      assert Split(s)[1..] == Split(s[1..]);
      JoinSplit(s[1..]);
    }
  }

  /** Reversing the pieces of a split is splitting the reversed string. */
  lemma ReverseSplit(s: seq<CodeUnit>)
    ensures Reverse(Split(s)) == Split(Reverse(s))
  {
  }

  /** Splitting, reversing the pieces and joining them reverses the
      string. */
  lemma JoinReversedSplit(s: seq<CodeUnit>)
    ensures Join(Reverse(Split(s))) == Reverse(s)
  {
    ReverseSplit(s);
    JoinSplit(Reverse(s));
  }

  /** The computed `reverseMessage`: code unit `i` of the value is code unit
      `|message| - 1 - i` of the current message. */
  function ReverseMessage(st: State): (r: seq<CodeUnit>)
    ensures |r| == |st.message|
    ensures forall i {:trigger r[i]} | 0 <= i < |r| :: r[i] == st.message[|st.message| - 1 - i]
  {
    JoinReversedSplit(st.message);
    Join(Reverse(Split(st.message)))
  }

  /** Reversing the computed value once more gives back the message. */
  lemma ReverseMessageInvolution(st: State)
    ensures ReverseMessage(State(ReverseMessage(st))) == st.message
  {
  }

  /** The computed value is the reversed message. */
  lemma ReverseMessageIsReverse(st: State)
    ensures ReverseMessage(st) == Reverse(st.message)
  {
    JoinReversedSplit(st.message);
  }

  /** Encodings of a BMP text and of that text read backwards are each
      other's reversal. */
  lemma {:induction false} Utf16OfBackwards(text: string, backwards: string)
    requires forall i | 0 <= i < |text| :: (text[i] as int) < 0x1_0000
    requires |backwards| == |text|
    requires forall i {:trigger backwards[i]} | 0 <= i < |text| :: backwards[i] == text[|text| - 1 - i]
    ensures Utf16(backwards) == Reverse(Utf16(text))
  {
    Utf16OfBmp(text);
    Utf16OfBmp(backwards);
    var m, w, r := Utf16(text), Utf16(backwards), Reverse(Utf16(text));
    assert |w| == |r|;
    forall i | 0 <= i < |w|
      ensures w[i] == r[i]
    {
      assert w[i] as int == backwards[i] as int;
      assert r[i] == m[|m| - 1 - i];
    }
  }

  /** On text made of Basic Multilingual Plane characters the computed value
      is the encoding of the text read backwards. */
  lemma ReverseMessageOfBmp(text: string, backwards: string)
    requires forall i | 0 <= i < |text| :: (text[i] as int) < 0x1_0000
    requires |backwards| == |text|
    requires forall i {:trigger backwards[i]} | 0 <= i < |text| :: backwards[i] == text[|text| - 1 - i]
    ensures ReverseMessage(State(Utf16(text))) == Utf16(backwards)
  {
    ReverseMessageIsReverse(State(Utf16(text)));
    Utf16OfBackwards(text, backwards);
  }

  /** The value for the initial message, and for an empty message. */
  lemma ReverseMessageExamples()
    ensures ReverseMessage(Initial()) == Utf16("!sgniteerG")
    ensures ReverseMessage(State([])) == []
  {
    ReverseMessageOfBmp("Greetings!", "!sgniteerG");
  }

  /** Because the split is by code unit, a character outside the Basic
      Multilingual Plane comes out with its surrogates swapped: the value
      starts with a low surrogate, which is not well-formed UTF-16. */
  lemma ReverseMessageSwapsSurrogates()
    ensures Utf16("\U{1F600}") == [0xD83D, 0xDE00]
    ensures ReverseMessage(State(Utf16("\U{1F600}"))) == [0xDE00, 0xD83D]
  {
    var units: seq<CodeUnit> := [0xD83D, 0xDE00];
    assert EncodeChar('\U{1F600}') == units;
    assert Utf16("\U{1F600}") == units + Utf16("");
    ReverseMessageIsReverse(State(units));
    assert Reverse(units) == [0xDE00, 0xD83D];
  }
}
