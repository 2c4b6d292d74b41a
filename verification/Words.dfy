// 32-bit data words and the bit-slice primitive every decoder rests on.
module Words {
  type Word = bv32

  function GetBitsInRange(value: Word, high: nat, low: nat): Word
    requires low <= high <= 31 && high - low < 31
  {
    (value >> low) & ((1 << (high - low + 1)) - 1)
  }

  // Bit 31 marks a data-type defining word; bits 30-27 are its type.
  predicate Defining(d: Word) {
    GetBitsInRange(d, 31, 31) == 1
  }

  function DataType(d: Word): Word {
    GetBitsInRange(d, 30, 27)
  }

  // A defining word of the given type with the given 27-bit payload.
  function DefiningWord(dataType: Word, payload: Word): Word {
    0x8000_0000 | (dataType << 27) | payload
  }

  lemma DefiningWordParts(dataType: Word, payload: Word)
    requires dataType < 16 && payload < 0x800_0000
    ensures Defining(DefiningWord(dataType, payload))
    ensures DataType(DefiningWord(dataType, payload)) == dataType
    ensures DefiningWord(dataType, payload) & 0x7FF_FFFF == payload
  {
  }

  // ----- Words that the FADC and the helicity decoder share -----

  function BlockHeaderWord(slot: Word, moduleId: Word, number: Word, declared: Word): Word {
    DefiningWord(0, (slot << 22) | (moduleId << 18) | (number << 8) | declared)
  }

  function EventHeaderWord(slot: Word, time: Word, triggerNum: Word): Word {
    DefiningWord(2, (slot << 22) | (time << 12) | triggerNum)
  }

  function UpperAndTime(upper: Word, time: Word): Word {
    (upper << 24) | time
  }

  lemma BlockHeaderBits(slot: Word, moduleId: Word, number: Word, declared: Word)
    requires slot < 32 && moduleId < 16 && number < 1024 && declared < 256
    ensures var d := BlockHeaderWord(slot, moduleId, number, declared);
      && Defining(d) && DataType(d) == 0 && GetBitsInRange(d, 26, 22) == slot && GetBitsInRange(d, 21, 18) == moduleId
      && GetBitsInRange(d, 17, 8) == number && GetBitsInRange(d, 7, 0) == declared
  {
  }

  lemma EventHeaderBits(slot: Word, time: Word, triggerNum: Word)
    requires slot < 32 && time < 1024 && triggerNum < 4096
    ensures var d := EventHeaderWord(slot, time, triggerNum);
      && Defining(d) && DataType(d) == 2 && GetBitsInRange(d, 26, 22) == slot
      && GetBitsInRange(d, 21, 12) == time && GetBitsInRange(d, 11, 0) == triggerNum
  {
  }

  lemma TriggerTimeBits(time1: Word, time2: Word, upper: Word)
    requires time1 < 0x100_0000 && time2 < 0x100_0000 && upper < 256
    ensures var d := DefiningWord(3, time1);
      Defining(d) && DataType(d) == 3 && GetBitsInRange(d, 23, 0) == time1
    ensures GetBitsInRange(UpperAndTime(upper, time2), 23, 0) == time2
  {
  }

  // ----- Words at positions -----

  // The part is found at position j.
  ghost predicate FoundAt(words: seq<Word>, j: nat, part: seq<Word>) {
    j + |part| <= |words| && words[j..j + |part|] == part
  }

  lemma AtSplit(words: seq<Word>, j: nat, left: seq<Word>, right: seq<Word>)
    requires FoundAt(words, j, left + right)
    ensures FoundAt(words, j, left) && FoundAt(words, j + |left|, right)
  {
    var slice := words[j..j + |left + right|];
    assert words[j..j + |left|] == slice[..|left|] == left;
    assert words[j + |left|..j + |left| + |right|] == slice[|left|..] == right;
  }

  lemma AtFirst(words: seq<Word>, j: nat, w: Word, rest: seq<Word>)
    requires FoundAt(words, j, [w] + rest)
    ensures j < |words| && words[j] == w && FoundAt(words, j + 1, rest)
  {
    AtSplit(words, j, [w], rest);
    assert words[j..j + 1][0] == words[j];
  }

  // ----- Trigger times -----

  // The MPD and VFTDC decoders combine the two 24-bit halves of a trigger time
  // in 32-bit arithmetic.
  function Timestamp(low: Word, high: Word): Word {
    (high << 24) | low
  }

  // Of a 48-bit trigger time they keep the whole exactly when it fits in 32
  // bits; otherwise the low 32 bits.
  lemma TimestampKept(low: Word, high: Word)
    requires low < 0x100_0000 && high < 0x100_0000
    ensures Timestamp(low, high) as bv64 == (((high as bv64) << 24) | (low as bv64)) & 0xFFFF_FFFF
    ensures Timestamp(low, high) as bv64 == ((high as bv64) << 24) | (low as bv64) <==> high < 256
  {
  }
}
