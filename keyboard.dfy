/** The keyboard report writer: each character of a text becomes a key-press
    report and a key-release report of 8 characters each (modifier byte,
    reserved byte, six key slots of which only the first is used).  The US
    layout table that maps characters to key codes is a parameter. */
module Keyboard {
  import opened Outcomes
  import Text

  /** `ModifierKeys`: the bits of the modifier byte of a report. */
  datatype ModifierKey = LCTRL | LSHIFT | LALT | LGUI | RCTRL | RSHIFT | RALT | RGUI

  function Mask(k: ModifierKey): int {
    match k
    case LCTRL => 0x01
    case LSHIFT => 0x02
    case LALT => 0x04
    case LGUI => 0x08
    case RCTRL => 0x10
    case RSHIFT => 0x20
    case RALT => 0x40
    case RGUI => 0x80
  }

  /** The bit each modifier occupies. */
  function BitIndex(k: ModifierKey): nat {
    match k
    case LCTRL => 0
    case LSHIFT => 1
    case LALT => 2
    case LGUI => 3
    case RCTRL => 4
    case RSHIFT => 5
    case RALT => 6
    case RGUI => 7
  }

  /** The eight masks are the eight single bits of a byte, one each. */
  lemma MasksAreSingleBits(a: ModifierKey, b: ModifierKey)
    ensures BitIndex(a) < 8 && Mask(a) == Text.Pow(2, BitIndex(a))
    ensures a != b ==> Mask(a) != Mask(b)
  {
    assert Text.Pow(2, 1) == 2 && Text.Pow(2, 2) == 4 && Text.Pow(2, 3) == 8 && Text.Pow(2, 4) == 16;
    assert Text.Pow(2, 5) == 32 && Text.Pow(2, 6) == 64 && Text.Pow(2, 7) == 128;
  }

  /** Every bit of a byte is some modifier's mask. */
  lemma EveryBitIsAModifier(n: nat)
    requires n < 8
    ensures exists k :: BitIndex(k) == n && Mask(k) == Text.Pow(2, n)
  {
    var k := if n == 0 then LCTRL else if n == 1 then LSHIFT else if n == 2 then LALT
      else if n == 3 then LGUI else if n == 4 then RCTRL else if n == 5 then RSHIFT
      else if n == 6 then RALT else RGUI;
    MasksAreSingleBits(k, k);
  }

  const NUL: char := 0 as char

  /** A key code of the layout table, below 0x80 so that it stays one byte. */
  type Keycode = k: int | 0 <= k < 0x80

  /** `ASCII_TO_KEYCODE`, indexed by character code; a missing entry is a
      failed lookup. */
  type Charmap = map<int, Keycode>

  function Nuls(n: nat): (s: string)
    ensures |s| == n && forall i :: 0 <= i < n ==> s[i] == NUL
  {
    if n == 0 then [] else Nuls(n - 1) + [NUL]
  }

  /** `str.isupper` on one character, for the ASCII letters. */
  predicate IsUpper(c: char) {
    'A' <= c <= 'Z'
  }

  /** `str.lower` on one character, for the ASCII letters. */
  function Lower(c: char): char {
    if IsUpper(c) then (c as int + 32) as char else c
  }

  /** The key-release report. */
  function Release(): string {
    Nuls(8)
  }

  /** The key-press report of one character: shift for an upper-case letter,
      and the key code of its lower-case form; nothing when the layout has no
      key for it. */
  function Press(charmap: Charmap, c: char): Option<string> {
    var modifier := if IsUpper(c) then Mask(RSHIFT) as char else NUL;
    var letter := Lower(c);
    if letter as int in charmap then Some([modifier, NUL, charmap[letter as int] as char] + Nuls(5))
    else None
  }

  /** What `write_text` sends, and whether it finished. */
  datatype Transmission = Transmission(reports: seq<string>, outcome: Outcome)

  /** The reports of a text: a press and a release per character, up to the
      first character the layout cannot type, where the lookup raises. */
  function Encode(charmap: Charmap, text: string): Transmission {
    if text == [] then Transmission([], Pass)
    else
      match Press(charmap, text[0])
      case None => Transmission([], Fail(LookupError))
      case Some(press) =>
        var rest := Encode(charmap, text[1..]);
        Transmission([press, Release()] + rest.reports, rest.outcome)
  }

  /** How many leading characters the layout can type. */
  function Typeable(charmap: Charmap, text: string): (n: nat)
    ensures n <= |text|
    ensures forall k :: 0 <= k < n ==> Press(charmap, text[k]).Some?
    ensures n < |text| ==> Press(charmap, text[n]).None?
  {
    if text == [] || Press(charmap, text[0]).None? then 0
    else 1 + Typeable(charmap, text[1..])
  }

  /** The press report: eight characters; the shift bit (0x20) in the first
      for an upper-case letter and NUL otherwise; NUL in the second; the key
      code of the character's lower-case form in the third; NUL in the rest.
      It exists exactly when the layout maps that lower-case form. */
  lemma PressShape(charmap: Charmap, c: char)
    ensures Press(charmap, c).Some? <==> Lower(c) as int in charmap
    ensures !IsUpper(c) ==> Lower(c) == c
    ensures IsUpper(c) ==> Lower(c) as int == c as int + 32
    ensures Press(charmap, c).Some? ==>
      var r := Press(charmap, c).value;
      && |r| == 8
      && r[0] == (if IsUpper(c) then 0x20 as char else NUL)
      && r[1] == NUL
      && r[2] == charmap[Lower(c) as int] as char
      && forall i :: 3 <= i < 8 ==> r[i] == NUL
  {
  }

  /** `write_text` sends two reports per typeable leading character and
      stops with a lookup failure at the first character the layout lacks:
      it finishes exactly when the whole text is typeable, and an empty text
      sends nothing. */
  lemma {:induction false} EncodeCount(charmap: Charmap, text: string)
    ensures |Encode(charmap, text).reports| == 2 * Typeable(charmap, text)
    ensures Encode(charmap, text).outcome ==
      (if Typeable(charmap, text) == |text| then Pass else Fail(LookupError))
  {
    if text != [] && Press(charmap, text[0]).Some? {
      EncodeCount(charmap, text[1..]);
    }
  }

  /** The reports come in pairs: the press report of the k-th character,
      then the release report of eight NULs. */
  lemma {:induction false} EncodePairs(charmap: Charmap, text: string, k: nat)
    requires k < Typeable(charmap, text)
    ensures 2 * k + 1 < |Encode(charmap, text).reports|
    ensures Encode(charmap, text).reports[2 * k] == Press(charmap, text[k]).value
    ensures Encode(charmap, text).reports[2 * k + 1] == Release()
  {
    EncodeCount(charmap, text);
    if k > 0 {
      var rest := text[1..];
      EncodePairs(charmap, rest, k - 1);
      var r := Encode(charmap, rest).reports;
      assert Encode(charmap, text).reports == [Press(charmap, text[0]).value, Release()] + r;
      assert text[k] == rest[k - 1];
    }
  }

  /** Every report sent is eight characters long. */
  lemma EncodeWidth(charmap: Charmap, text: string, j: nat)
    requires j < |Encode(charmap, text).reports|
    ensures |Encode(charmap, text).reports[j]| == 8
  {
    EncodeCount(charmap, text);
    var k := j / 2;
    EncodePairs(charmap, text, k);
    PressShape(charmap, text[k]);
    if j % 2 == 0 {
      assert j == 2 * k;
    } else {
      assert j == 2 * k + 1;
    }
  }

  /** One step of `Encode` along a suffix of the text. */
  lemma EncodeFrom(charmap: Charmap, text: string, i: nat)
    requires i < |text|
    ensures Press(charmap, text[i]).None? ==>
      Encode(charmap, text[i..]) == Transmission([], Fail(LookupError))
    ensures Press(charmap, text[i]).Some? ==>
      var rest := Encode(charmap, text[i + 1..]);
      Encode(charmap, text[i..])
        == Transmission([Press(charmap, text[i]).value, Release()] + rest.reports, rest.outcome)
  {
    assert text[i..][0] == text[i];
    assert text[i..][1..] == text[i + 1..];
  }

  /** `ReportWriter`: the device is the sequence of reports sent to it. */
  class ReportWriter {
    const charmap: Charmap
    var sent: seq<string>

    constructor(charmap: Charmap)
      ensures this.charmap == charmap && sent == []
    {
      this.charmap := charmap;
      sent := [];
    }

    /** `send`: one report to the device. */
    method Send(report: string)
      modifies this`sent
      ensures sent == old(sent) + [report]
    {
      sent := sent + [report];
    }

    /** `write_text`: for each character, the press report and the release
        report, until a character the layout lacks. */
    method WriteText(text: string) returns (o: Outcome)
      modifies this`sent
      ensures sent == old(sent) + Encode(charmap, text).reports
      ensures o == Encode(charmap, text).outcome
    {
      var i := 0;
      while i < |text|
        invariant 0 <= i <= |text|
        invariant old(sent) + Encode(charmap, text).reports == sent + Encode(charmap, text[i..]).reports
        invariant Encode(charmap, text).outcome == Encode(charmap, text[i..]).outcome
      {
        EncodeFrom(charmap, text, i);
        var letter := text[i];
        var modifier: char;
        if IsUpper(letter) {
          modifier := Mask(RSHIFT) as char;
          letter := Lower(letter);
        } else {
          modifier := NUL;
        }
        if letter as int !in charmap {
          return Fail(LookupError);
        }
        var key := charmap[letter as int] as char;
        assert [modifier, NUL, key] + Nuls(5) == Press(charmap, text[i]).value;
        ghost var before := sent;
        ghost var rest := Encode(charmap, text[i + 1..]).reports;
        Send([modifier, NUL, key] + Nuls(5));
        Send(Nuls(8));
        assert before + ([Press(charmap, text[i]).value, Release()] + rest) == sent + rest;
        i := i + 1;
      }
      assert text[i..] == [];
      return Pass;
    }
  }
}
