/** Saving and restoring an app's settings blob: its length and its bytes, four to a number, as members of a JSON object. */
module SettingsBlob {
  import opened Chars
  import opened Json
  import opened Grammar
  import opened Arena
  import opened Cursor
  import opened ParseHost
  import opened Members
  import opened Writer
  import opened RoundTrip

  const MAX_BLOB := 512
  const WORDS := 128
  const LEN: CString := "oc_len"

  type Byte = b: int | 0 <= b < 0x100

  /** The hooks an app offers, and the storage size it reports if it reports one. */
  datatype Hooks = Hooks(saves: bool, restores: bool, storageSize: Option<nat>)
  {
    predicate Fits() {
      storageSize.Some? ==> storageSize.value <= MAX_BLOB
    }
  }

  lemma FitsIff(hooks: Hooks)
    ensures hooks.Fits() <==> hooks.storageSize.None? || hooks.storageSize.value <= 512
  {
  }

  // ---- Words ------------------------------------------------------------------------------------

  function WordName(w: nat): CString {
    "oc_w" + IntText(w)
  }

  lemma WordNameInjective(w: nat, w': nat)
    requires w < WORDS && w' < WORDS
    ensures WordName(w) == WordName(w') <==> w == w'
    ensures WordName(w) != LEN
  {
    hide IntText;
    assert WordName(w)[4..] == IntText(w) && WordName(w')[4..] == IntText(w');
    IntTextInjective(w, w');
    assert WordName(w)[3] == 'w';
  }

  /** The digit loop of `blob_word_name`: the digits of a number, lowest first. */
  method DigitsBackwards(idx: nat) returns (tmp: string)
    ensures |tmp| == |IntText(idx)| && forall k :: 0 <= k < |tmp| ==> tmp[k] == IntText(idx)[|tmp| - 1 - k]
  {
    hide NatText, IntText, HigherDigits;
    NatTextUnfolds(idx);
    tmp := [];
    if idx == 0 {
      tmp := tmp + [DigitChar(0)];
    } else {
      ghost var digits: string := [];
      var x := idx;
      while x > 0
        invariant |tmp| == |digits| && forall k :: 0 <= k < |tmp| ==> tmp[k] == digits[|tmp| - 1 - k]
        invariant NatText(idx) == HigherDigits(x) + digits
      {
        NatTextUnfolds(x);
        var c := DigitChar(x % 10);
        Regrouped(HigherDigits(x / 10), [c], digits);
        tmp := tmp + [c];
        digits := [c] + digits;
        x := x / 10;
      }
      assert [] + digits == digits;
    }
  }

  /** The digits still to be collected. */
  function HigherDigits(x: nat): string {
    if x == 0 then [] else NatText(x)
  }

  lemma NatTextUnfolds(x: nat)
    ensures NatText(x) == HigherDigits(x / 10) + [DigitChar(x % 10)]
    ensures HigherDigits(0) == [] && (x > 0 ==> HigherDigits(x) == NatText(x))
    ensures IntText(x) == NatText(x)
  {
  }

  /** `blob_word_name` */
  method BlobWordName(idx: nat) returns (name: CString)
    ensures name == WordName(idx)
  {
    hide IntText;
    var tmp := DigitsBackwards(idx);
    ghost var digits := IntText(idx);
    name := "oc_w";
    var t := |tmp|;
    while t > 0
      invariant 0 <= t <= |tmp| && name == "oc_w" + digits[..|tmp| - t]
    {
      t := t - 1;
      name := name + [tmp[t]];
    }
    assert digits[..|tmp|] == digits;
  }

  function ByteAt(s: seq<Byte>, i: nat): Byte {
    if i < |s| then s[i] else 0
  }

  /** The little-endian word of the bytes from `4 * w` on; bytes past the end are 0. */
  function Packed(s: seq<Byte>, w: nat): (r: nat)
    ensures r < TWO_32
  {
    ByteAt(s, 4 * w) + 0x100 * ByteAt(s, 4 * w + 1) + 0x1_0000 * ByteAt(s, 4 * w + 2) + 0x100_0000 * ByteAt(s, 4 * w + 3)
  }

  function Weight(b: nat): nat
    requires b < 4
  {
    if b == 0 then 1 else if b == 1 then 0x100 else if b == 2 then 0x1_0000 else 0x100_0000
  }

  /** `(uint8_t)(((uint32_t)packed >> (b * 8)) & 0xFF)` */
  function Unpacked(packed: int, b: nat): Byte
    requires b < 4
  {
    ToUint32(packed) / Weight(b) % 0x100
  }

  /** A word gives back its four bytes, also where it is saved as a negative number. */
  lemma UnpackInvertsPack(s: seq<Byte>, w: nat, b: nat)
    requires b < 4
    ensures Unpacked(ToInt32(Packed(s, w)), b) == ByteAt(s, 4 * w + b)
  {
    WordReadsBack(Packed(s, w));
    BytesOfWord(ByteAt(s, 4 * w), ByteAt(s, 4 * w + 1), ByteAt(s, 4 * w + 2), ByteAt(s, 4 * w + 3));
  }

  lemma BytesOfWord(b0: Byte, b1: Byte, b2: Byte, b3: Byte)
    ensures var u := b0 + 0x100 * b1 + 0x1_0000 * b2 + 0x100_0000 * b3;
      u % 0x100 == b0 && u / 0x100 % 0x100 == b1 && u / 0x1_0000 % 0x100 == b2 && u / 0x100_0000 % 0x100 == b3
  {
    var u := b0 + 0x100 * b1 + 0x1_0000 * b2 + 0x100_0000 * b3;
    assert u / 0x100 == b1 + 0x100 * b2 + 0x1_0000 * b3;
    assert u / 0x1_0000 == b2 + 0x100 * b3;
    assert u / 0x100_0000 == b3;
  }

  /** Byte k of a blob is bits 8 k to 8 k + 7 of its word, lowest first, in writing and in reading. */
  lemma WordsAreLittleEndian(s: seq<Byte>, w: nat, packed: int)
    ensures Packed(s, w) % 0x100 == if 4 * w < |s| then s[4 * w] else 0
    ensures Packed(s, w) / 0x100 % 0x100 == if 4 * w + 1 < |s| then s[4 * w + 1] else 0
    ensures Packed(s, w) / 0x1_0000 % 0x100 == if 4 * w + 2 < |s| then s[4 * w + 2] else 0
    ensures Packed(s, w) / 0x100_0000 == if 4 * w + 3 < |s| then s[4 * w + 3] else 0
    ensures ToUint32(packed) == Unpacked(packed, 0) + 0x100 * Unpacked(packed, 1) + 0x1_0000 * Unpacked(packed, 2)
                                + 0x100_0000 * Unpacked(packed, 3)
  {
    BytesOfWord(ByteAt(s, 4 * w), ByteAt(s, 4 * w + 1), ByteAt(s, 4 * w + 2), ByteAt(s, 4 * w + 3));
    BytesMakeWord(ToUint32(packed));
  }

  lemma BytesMakeWord(u: nat)
    requires u < TWO_32
    ensures u == u % 0x100 + 0x100 * (u / 0x100 % 0x100) + 0x1_0000 * (u / 0x1_0000 % 0x100) + 0x100_0000 * (u / 0x100_0000 % 0x100)
  {
    var q1 := u / 0x100;
    var q2 := q1 / 0x100;
    var q3 := q2 / 0x100;
    assert u / 0x1_0000 == q2 && u / 0x100_0000 == q3;
  }

  /** The inner loop of `serialise`. The bytes land in different bits, so that or-ing them in is adding them. */
  method PackWord(saved: seq<Byte>, w: nat) returns (packed: nat)
    ensures packed == Packed(saved, w)
  {
    packed := 0;
    for b: nat := 0 to 4
      invariant b == 0 ==> packed == 0
      invariant b == 1 ==> packed == ByteAt(saved, 4 * w)
      invariant b == 2 ==> packed == ByteAt(saved, 4 * w) + 0x100 * ByteAt(saved, 4 * w + 1)
      invariant b == 3 ==> packed == ByteAt(saved, 4 * w) + 0x100 * ByteAt(saved, 4 * w + 1) + 0x1_0000 * ByteAt(saved, 4 * w + 2)
      invariant b == 4 ==> packed == Packed(saved, w)
    {
      var idx := w * 4 + b;
      if idx < |saved| {
        packed := packed + saved[idx] * Weight(b);
      }
    }
  }

  // ---- Saving -----------------------------------------------------------------------------------

  function WordCount(len: nat): nat {
    (len + 3) / 4
  }

  /** The members `serialise` writes. */
  function BlobNames(len: nat): seq<string> {
    [LEN] + seq(WordCount(len), (w: nat) => WordName(w))
  }

  function BlobValues(saved: seq<Byte>): seq<Json> {
    [Int(|saved|)] + seq(WordCount(|saved|), (w: nat) => Int(ToInt32(Packed(saved, w))))
  }

  /** `serialise` of what the app's `save` hook has put into the blob. */
  method Serialise(hooks: Hooks, saved: seq<Byte>, stream: JsonStream, ghost d: Doc)
    requires hooks.saves && hooks.Fits() ==> |saved| <= MAX_BLOB
    requires Writes(stream, d) && NameReady(d)
    modifies stream
    ensures Writes(stream, if hooks.saves && hooks.Fits() then Filled(Root(d), BlobNames(|saved|), BlobValues(saved)) else d)
  {
    hide Shows, Filled, Root, NameReady, WordName, Packed, BlobNames, BlobValues;
    if !hooks.saves {
      return;
    }
    if hooks.storageSize.Some? && hooks.storageSize.value > MAX_BLOB {
      return;
    }
    ghost var root := Root(d);
    RootFacts(d);
    WriteMember(stream, LEN, Int(|saved|), d);
    var words := WordCount(|saved|);
    ghost var names, elems := BlobNames(|saved|), BlobValues(saved);
    BlobStarts(saved);
    for w: nat := 0 to words
      invariant Writes(stream, Filled(root, names[..w + 1], elems[..w + 1]))
    {
      var packed := PackWord(saved, w);
      var name := BlobWordName(w);
      BlobGrows(saved, w);
      FilledIsNameReady(root, names[..w + 1], elems[..w + 1]);
      FilledTwice(root, names[..w + 1], elems[..w + 1], [name], [Int(ToInt32(packed))]);
      WriteMember(stream, name, Int(ToInt32(packed)), Filled(root, names[..w + 1], elems[..w + 1]));
    }
    assert names[..words + 1] == names && elems[..words + 1] == elems;
  }

  lemma BlobStarts(saved: seq<Byte>)
    ensures |BlobNames(|saved|)| == |BlobValues(saved)| == WordCount(|saved|) + 1
    ensures BlobNames(|saved|)[..1] == [LEN] && BlobValues(saved)[..1] == [Int(|saved|)]
  {
    hide Packed, WordName;
  }

  lemma BlobGrows(saved: seq<Byte>, w: nat)
    requires w < WordCount(|saved|)
    ensures |BlobNames(|saved|)| == |BlobValues(saved)| == WordCount(|saved|) + 1
    ensures BlobNames(|saved|)[..w + 1] + [WordName(w)] == BlobNames(|saved|)[..w + 2]
    ensures BlobValues(saved)[..w + 1] + [Int(ToInt32(Packed(saved, w)))] == BlobValues(saved)[..w + 2]
  {
    hide Packed, WordName;
  }

  // ---- Restoring --------------------------------------------------------------------------------

  /** The blob and the length read so far; the length is -1 until there is one. */
  datatype Reading = Rejected | Reading(blob: seq<Byte>, len: int)
  {
    /** The blob handed to the app: all 512 bytes of it, if the length is in range. */
    function Delivered(): Option<seq<Byte>> {
      if Reading? && 0 <= len <= MAX_BLOB then Some(blob) else None
    }
  }

  /** The word a member name stands for. */
  function FindWord(name: string, from: nat): Option<nat>
    decreases WORDS - from
  {
    if from >= WORDS then None else if WordName(from) == name then Some(from) else FindWord(name, from + 1)
  }

  lemma {:induction false} FindWordFinds(name: string, from: nat, w: nat)
    ensures FindWord(name, from) == Some(w) <==> from <= w < WORDS && name == WordName(w)
    decreases WORDS - from
  {
    hide WordName;
    if from < WORDS {
      if from <= w < WORDS {
        WordNameInjective(from, w);
      }
      FindWordFinds(name, from + 1, w);
    }
  }

  /** A blob with word `w` overwritten. */
  function Patched(blob: seq<Byte>, w: nat, packed: int): (r: seq<Byte>)
    requires |blob| == MAX_BLOB
    ensures |r| == MAX_BLOB
  {
    seq(MAX_BLOB, i requires 0 <= i < MAX_BLOB => if i / 4 == w then Unpacked(packed, i % 4) else blob[i])
  }

  /** What `deserialise` makes of one member. */
  function TakeMember(name: string, v: Json, realToInt: string -> int, blob: seq<Byte>, len: int): (r: Reading)
    requires |blob| == MAX_BLOB
    ensures r.Reading? ==> |r.blob| == MAX_BLOB
  {
    if name == LEN then if IsNumber(v) then Reading(blob, NumberOf(v, realToInt)) else Rejected
    else
      match FindWord(name, 0)
      case None => Reading(blob, len)
      case Some(w) => if IsNumber(v) then Reading(Patched(blob, w, NumberOf(v, realToInt)), len) else Rejected
  }

  /** What `deserialise` makes of the members from a point on. */
  function TakeMembers(names: seq<string>, elems: seq<Json>, realToInt: string -> int, blob: seq<Byte>, len: int): Reading
    requires |names| == |elems| && |blob| == MAX_BLOB
    decreases elems
  {
    if elems == [] then Reading(blob, len)
    else
      match TakeMember(names[0], elems[0], realToInt, blob, len)
      case Rejected => Rejected
      case Reading(blob', len') => TakeMembers(names[1..], elems[1..], realToInt, blob', len')
  }

  const ZEROS: seq<Byte> := seq(MAX_BLOB, (_: nat) => 0)

  method Deserialise(hooks: Hooks, parse: JsonParse) returns (ok: bool, delivered: Option<seq<Byte>>)
    requires parse.Valid()
    modifies parse
    ensures parse.Valid()
    ensures var h := Head(old(parse.View()));
      if !hooks.restores || !hooks.Fits() || h.None? || !h.value.Obj? then !ok && delivered == None
      else
        && |h.value.names| == |h.value.elems|
        && delivered == TakeMembers(h.value.names, h.value.elems, parse.realToInt, ZEROS, -1).Delivered()
        && ok == delivered.Some?
  {
    hide TakeMembers, Advance, MemberPosition, Groups, FrameFits, ArenaFits;
    if !hooks.restores {
      return false, None;
    }
    if hooks.storageSize.Some? && hooks.storageSize.value > MAX_BLOB {
      return false, None;
    }
    ghost var c := parse.View();
    HeadIsNamed(parse);
    var entered, num := parse.EnterContainer(true);
    if !entered {
      return false, None;
    }
    ghost var v, base := Head(c).value, Advance(c);
    EnterObjectPosition(c);
    var blob, blobLen := ZEROS, -1;
    ghost var full := TakeMembers(v.names, v.elems, parse.realToInt, ZEROS, -1);
    assert v.names[0..] == v.names && v.elems[0..] == v.elems;
    for i := 0 to num
      invariant parse.Valid() && num == |v.elems| && |blob| == MAX_BLOB
      invariant parse.View() == MemberPosition(base, v.names, v.elems, i)
      invariant full == TakeMembers(v.names[i..], v.elems[i..], parse.realToInt, blob, blobLen)
    {
      TakeMembersUnfolds(v.names, v.elems, i, parse.realToInt, blob, blobLen);
      ok, blob, blobLen := ReadBlobMember(parse, blob, blobLen, base, v, i);
      if !ok {
        return false, None;
      }
    }
    NoMembers(v.names[num..], v.elems[num..], parse.realToInt, blob, blobLen);
    if blobLen < 0 || blobLen > MAX_BLOB {
      return false, None;
    }
    ok, delivered := true, Some(blob);
  }

  /** The body of the loop over the members. */
  method ReadBlobMember(parse: JsonParse, blob: seq<Byte>, len: int, ghost base: Position, ghost v: Json, ghost i: nat)
      returns (ok: bool, blob': seq<Byte>, len': int)
    requires parse.Valid() && |blob| == MAX_BLOB
    requires v.Obj? && |v.names| == |v.elems| && i < |v.elems| && Settled(base)
    requires parse.View() == MemberPosition(base, v.names, v.elems, i)
    modifies parse
    ensures parse.Valid() && |blob'| == MAX_BLOB
    ensures TakeMember(v.names[i], v.elems[i], parse.realToInt, blob, len) == if ok then Reading(blob', len') else Rejected
    ensures ok ==> parse.View() == MemberPosition(base, v.names, v.elems, i + 1)
  {
    hide Advance, MemberPosition, FindWord, Patched, Groups, FrameFits, ArenaFits;
    blob', len' := blob, len;
    MemberAt(base, v.names, v.elems, i);
    var isLen := parse.MatchName(LEN);
    if isLen {
      ok, len' := parse.Number();
      return;
    }
    var word := MatchWord(parse, v.names[i]);
    if word.Some? {
      var packed;
      ok, packed := parse.Number();
      if ok {
        FindWordFinds(v.names[i], 0, word.value);
        blob' := PatchWord(blob, word.value, packed);
      }
    } else {
      ok := parse.SkipOneMember();
    }
  }

  /** The loop over the word names. */
  method MatchWord(parse: JsonParse, ghost name: string) returns (word: Option<nat>)
    requires parse.Valid() && forall x :: NameIs(parse.View(), x) <==> name == x
    ensures word == FindWord(name, 0)
  {
    hide WordName;
    for w: nat := 0 to WORDS
      invariant FindWord(name, 0) == FindWord(name, w)
    {
      var candidate := BlobWordName(w);
      var here := parse.MatchName(candidate);
      if here {
        return Some(w);
      }
    }
    word := None;
  }

  /** The loop over the four bytes of a word. */
  method PatchWord(blob: seq<Byte>, w: nat, packed: int) returns (r: seq<Byte>)
    requires |blob| == MAX_BLOB && w < WORDS
    ensures r == Patched(blob, w, packed)
  {
    hide Unpacked;
    r := blob;
    for b: nat := 0 to 4
      invariant |r| == MAX_BLOB
      invariant forall i :: 0 <= i < MAX_BLOB ==> r[i] == if 4 * w <= i < 4 * w + b then Unpacked(packed, i - 4 * w) else blob[i]
    {
      var idx := w * 4 + b;
      if idx < MAX_BLOB {
        r := r[idx := Unpacked(packed, b)];
      }
    }
    forall i | 0 <= i < MAX_BLOB ensures r[i] == Patched(blob, w, packed)[i] {
      assert i == 4 * (i / 4) + i % 4;
    }
  }

  lemma TakeMembersUnfolds(names: seq<string>, elems: seq<Json>, i: nat, realToInt: string -> int, blob: seq<Byte>, len: int)
    requires |names| == |elems| && i < |elems| && |blob| == MAX_BLOB
    ensures TakeMembers(names[i..], elems[i..], realToInt, blob, len) ==
      match TakeMember(names[i], elems[i], realToInt, blob, len)
      case Rejected => Rejected
      case Reading(blob', len') => TakeMembers(names[i + 1..], elems[i + 1..], realToInt, blob', len')
  {
    hide TakeMember;
    assert names[i..][1..] == names[i + 1..] && elems[i..][1..] == elems[i + 1..];
  }

  lemma NoMembers(names: seq<string>, elems: seq<Json>, realToInt: string -> int, blob: seq<Byte>, len: int)
    requires names == [] && elems == [] && |blob| == MAX_BLOB
    ensures TakeMembers(names, elems, realToInt, blob, len) == Reading(blob, len)
  {
  }

  // ---- What survives ----------------------------------------------------------------------------

  predicate IsBlobName(name: string) {
    name == LEN || FindWord(name, 0).Some?
  }

  function LengthIn(v: Option<Json>, realToInt: string -> int, otherwise: int): int {
    if v.Some? && IsNumber(v.value) then NumberOf(v.value, realToInt) else otherwise
  }

  function ByteIn(v: Option<Json>, realToInt: string -> int, b: nat, otherwise: Byte): Byte
    requires b < 4
  {
    if v.Some? && IsNumber(v.value) then Unpacked(NumberOf(v.value, realToInt), b) else otherwise
  }

  /** The blob that looking up every word gives, over a blob to start from. */
  function LookedUp(names: seq<string>, elems: seq<Json>, realToInt: string -> int, blob: seq<Byte>): (r: seq<Byte>)
    requires |names| == |elems| && |blob| == MAX_BLOB
    ensures |r| == MAX_BLOB
  {
    seq(MAX_BLOB, i requires 0 <= i < MAX_BLOB => ByteIn(LastOf(names, elems, WordName(i / 4)), realToInt, i % 4, blob[i]))
  }

  /** Reading fails exactly when a blob member is no number; otherwise each word, and the length, is the last member of
      its name, and bytes without a word stay as they are. */
  lemma {:induction false} BlobTakesLast(names: seq<string>, elems: seq<Json>, realToInt: string -> int, blob: seq<Byte>, len: int)
    requires |names| == |elems| && |blob| == MAX_BLOB
    ensures TakeMembers(names, elems, realToInt, blob, len)
         == if NumbersUnder(IsBlobName, names, elems)
            then Reading(LookedUp(names, elems, realToInt, blob), LengthIn(LastOf(names, elems, LEN), realToInt, len))
            else Rejected
    decreases elems
  {
    hide TakeMember, LastOf, LookedUp, IsBlobName, NumbersUnder;
    if elems == [] {
      LookUpNothing(names, elems, realToInt, blob, len);
    } else {
      NumbersInTail(IsBlobName, names, elems);
      match TakeMember(names[0], elems[0], realToInt, blob, len)
      case Rejected =>
        FirstIsRejectedIff(names[0], elems[0], realToInt, blob, len);
      case Reading(blob', len') =>
        FirstIsRejectedIff(names[0], elems[0], realToInt, blob, len);
        BlobTakesLast(names[1..], elems[1..], realToInt, blob', len');
        if NumbersUnder(IsBlobName, names, elems) {
          LookUpCons(names, elems, realToInt, blob, len);
        }
    }
  }

  lemma LookUpNothing(names: seq<string>, elems: seq<Json>, realToInt: string -> int, blob: seq<Byte>, len: int)
    requires names == [] && elems == [] && |blob| == MAX_BLOB
    ensures LookedUp(names, elems, realToInt, blob) == blob && LastOf(names, elems, LEN) == None
    ensures NumbersUnder(IsBlobName, names, elems)
  {
  }

  lemma FirstIsRejectedIff(name: string, v: Json, realToInt: string -> int, blob: seq<Byte>, len: int)
    requires |blob| == MAX_BLOB
    ensures TakeMember(name, v, realToInt, blob, len).Rejected? <==> IsBlobName(name) && !IsNumber(v)
  {
  }

  /** A member in front is overruled by a later one of the same name. */
  lemma LookUpCons(names: seq<string>, elems: seq<Json>, realToInt: string -> int, blob: seq<Byte>, len: int)
    requires |names| == |elems| && elems != [] && |blob| == MAX_BLOB && NumbersUnder(IsBlobName, names, elems)
    ensures var r := TakeMember(names[0], elems[0], realToInt, blob, len);
      && r.Reading?
      && LookedUp(names[1..], elems[1..], realToInt, r.blob) == LookedUp(names, elems, realToInt, blob)
      && LengthIn(LastOf(names[1..], elems[1..], LEN), realToInt, r.len) == LengthIn(LastOf(names, elems, LEN), realToInt, len)
  {
    hide LastOf, FindWord, IsBlobName, NumbersUnder, ByteIn, WordName, TakeMember;
    NumbersInTail(IsBlobName, names, elems);
    FirstIsRejectedIff(names[0], elems[0], realToInt, blob, len);
    var r := TakeMember(names[0], elems[0], realToInt, blob, len);
    LengthCons(names, elems, realToInt, blob, len);
    forall i | 0 <= i < MAX_BLOB
      ensures LookedUp(names[1..], elems[1..], realToInt, r.blob)[i] == LookedUp(names, elems, realToInt, blob)[i]
    {
      ByteCons(names, elems, realToInt, blob, len, i);
    }
  }

  lemma LengthCons(names: seq<string>, elems: seq<Json>, realToInt: string -> int, blob: seq<Byte>, len: int)
    requires |names| == |elems| && elems != [] && |blob| == MAX_BLOB && NumbersUnder(IsBlobName, names, elems)
    requires TakeMember(names[0], elems[0], realToInt, blob, len).Reading?
    ensures LengthIn(LastOf(names[1..], elems[1..], LEN), realToInt, TakeMember(names[0], elems[0], realToInt, blob, len).len)
         == LengthIn(LastOf(names, elems, LEN), realToInt, len)
  {
    hide LastOf, FindWord, NumbersUnder;
    LastOfCons(names, elems, LEN);
    NumbersInTail(IsBlobName, names, elems);
    LastIsNumber(IsBlobName, names[1..], elems[1..], LEN);
  }

  lemma ByteCons(names: seq<string>, elems: seq<Json>, realToInt: string -> int, blob: seq<Byte>, len: int, i: nat)
    requires |names| == |elems| && elems != [] && |blob| == MAX_BLOB && NumbersUnder(IsBlobName, names, elems) && i < MAX_BLOB
    requires TakeMember(names[0], elems[0], realToInt, blob, len).Reading?
    ensures ByteIn(LastOf(names[1..], elems[1..], WordName(i / 4)), realToInt, i % 4,
                   TakeMember(names[0], elems[0], realToInt, blob, len).blob[i])
         == ByteIn(LastOf(names, elems, WordName(i / 4)), realToInt, i % 4, blob[i])
  {
    hide LastOf, Unpacked, WordName, FindWord, NumbersUnder;
    var w := i / 4;
    LastOfCons(names, elems, WordName(w));
    FindWordFinds(WordName(w), 0, w);
    FindWordFinds(names[0], 0, w);
    WordNameInjective(w, w);
    NumbersInTail(IsBlobName, names, elems);
    LastIsNumber(IsBlobName, names[1..], elems[1..], WordName(w));
  }

  /** The blob members are the length and the words 0 to 127. */
  lemma BlobNamesAre(name: string)
    ensures IsBlobName(name) <==> name == "oc_len" || exists w: nat :: w < 128 && name == "oc_w" + IntText(w)
  {
    hide IntText, FindWord;
    if FindWord(name, 0).Some? {
      FindWordFinds(name, 0, FindWord(name, 0).value);
    }
    if w: nat :| w < 128 && name == "oc_w" + IntText(w) {
      assert name == WordName(w);
      FindWordFinds(name, 0, w);
    }
  }

  /** A blob is delivered exactly if every blob member is a number and the last length is there and from 0 to 512. Byte i of
      it is then the byte of the last word for i, and 0 where there is none. */
  lemma BlobDeliveredIff(names: seq<string>, elems: seq<Json>, realToInt: string -> int)
    requires |names| == |elems|
    ensures var r, len := TakeMembers(names, elems, realToInt, ZEROS, -1).Delivered(), LastOf(names, elems, "oc_len");
      && (r.Some? <==> (forall k :: 0 <= k < |elems| && IsBlobName(names[k]) ==> IsNumber(elems[k]))
                       && len.Some? && IsNumber(len.value) && 0 <= NumberOf(len.value, realToInt) <= 512)
      && (r.Some? ==> |r.value| == 512 && forall i :: 0 <= i < 512 ==> ByteIsLast(names, elems, realToInt, i, r.value[i]))
  {
    hide TakeMembers, LastOf, IsBlobName, LookedUp;
    BlobTakesLast(names, elems, realToInt, ZEROS, -1);
    if NumbersUnder(IsBlobName, names, elems) {
      BlobNamesAre(LEN);
      LastIsNumber(IsBlobName, names, elems, LEN);
      forall i | 0 <= i < 512 ensures ByteIsLast(names, elems, realToInt, i, LookedUp(names, elems, realToInt, ZEROS)[i]) {
        LookedUpAt(names, elems, realToInt, i);
      }
    }
  }

  /** Byte i is that of the last member for its word, or 0. */
  predicate ByteIsLast(names: seq<string>, elems: seq<Json>, realToInt: string -> int, i: nat, b: Byte)
    requires |names| == |elems|
  {
    match LastOf(names, elems, "oc_w" + IntText(i / 4))
    case None => b == 0
    case Some(v) => IsNumber(v) && b == Unpacked(NumberOf(v, realToInt), i % 4)
  }

  lemma LookedUpAt(names: seq<string>, elems: seq<Json>, realToInt: string -> int, i: nat)
    requires |names| == |elems| && NumbersUnder(IsBlobName, names, elems) && i < 512
    ensures ByteIsLast(names, elems, realToInt, i, LookedUp(names, elems, realToInt, ZEROS)[i])
  {
    hide LastOf, IntText, Unpacked, IsBlobName, NumbersUnder;
    var name := WordName(i / 4);
    BlobNamesAre(name);
    LastIsNumber(IsBlobName, names, elems, name);
  }

  // ---- The saved members ------------------------------------------------------------------------

  /** The blob that is handed back: the saved bytes, zeros behind them. */
  function Padded(saved: seq<Byte>): (r: seq<Byte>)
    ensures |r| == MAX_BLOB
  {
    seq(MAX_BLOB, (i: nat) => ByteAt(saved, i))
  }

  /** The members of a saved blob among others, in any order, are read as exactly that blob. The others may repeat
      names and hold anything, as long as they are no blob members. */
  lemma BlobIsRestored(names: seq<string>, elems: seq<Json>, saved: seq<Byte>, otherNames: seq<string>, others: seq<Json>,
                       realToInt: string -> int)
    requires |saved| <= MAX_BLOB && |otherNames| == |others|
    requires OthersApart(otherNames)
    requires SameMembers(names, elems, BlobNames(|saved|) + otherNames, BlobValues(saved) + others)
    ensures TakeMembers(names, elems, realToInt, ZEROS, -1) == Reading(Padded(saved), |saved|)
    ensures TakeMembers(names, elems, realToInt, ZEROS, -1).Delivered() == Some(Padded(saved))
  {
    hide TakeMembers, LastOf, IsBlobName, Packed, Unpacked, BlobNames, BlobValues;
    var allNames, all := BlobNames(|saved|) + otherNames, BlobValues(saved) + others;
    forall k | 0 <= k < |all| && IsBlobName(allNames[k]) ensures IsNumber(all[k]) {
      SavedAreNumbers(saved, otherNames, others, k);
    }
    assert NumbersUnder(IsBlobName, names, elems) by {
      forall k | 0 <= k < |elems| && IsBlobName(names[k]) ensures IsNumber(elems[k]) {
        assert Pairs(names, elems)[k] == (names[k], elems[k]);
        MemberIsIn(names, elems, allNames, all, (names[k], elems[k]));
      }
    }
    BlobTakesLast(names, elems, realToInt, ZEROS, -1);
    SavedLength(saved, otherNames, others);
    LookupIgnoresOrder(names, elems, allNames, all, LEN);
    forall i | 0 <= i < MAX_BLOB ensures LookedUp(names, elems, realToInt, ZEROS)[i] == Padded(saved)[i] {
      SavedWord(saved, otherNames, others, i / 4);
      LookupIgnoresOrder(names, elems, allNames, all, WordName(i / 4));
      UnpackInvertsPack(saved, i / 4, i % 4);
      assert i == 4 * (i / 4) + i % 4;
    }
  }

  /** Where the members of a saved blob stand before others. */
  lemma SavedAt(saved: seq<Byte>, otherNames: seq<string>, others: seq<Json>, k: nat)
    requires |otherNames| == |others| && k < 1 + WordCount(|saved|) + |others|
    ensures var names, elems := BlobNames(|saved|) + otherNames, BlobValues(saved) + others;
      && |names| == |elems| == 1 + WordCount(|saved|) + |others|
      && names[k] == (if k == 0 then LEN else if k <= WordCount(|saved|) then WordName(k - 1)
                      else otherNames[k - 1 - WordCount(|saved|)])
      && elems[k] == (if k == 0 then Int(|saved|) else if k <= WordCount(|saved|) then Int(ToInt32(Packed(saved, k - 1)))
                      else others[k - 1 - WordCount(|saved|)])
  {
    hide WordName, Packed;
  }

  predicate OthersApart(otherNames: seq<string>) {
    forall k :: 0 <= k < |otherNames| ==> !IsBlobName(otherNames[k])
  }

  lemma SavedAreNumbers(saved: seq<Byte>, otherNames: seq<string>, others: seq<Json>, k: nat)
    requires |otherNames| == |others| && OthersApart(otherNames) && k < |BlobValues(saved) + others|
    requires IsBlobName((BlobNames(|saved|) + otherNames)[k])
    ensures IsNumber((BlobValues(saved) + others)[k])
  {
    hide IsBlobName, WordName, Packed;
    SavedAt(saved, otherNames, others, k);
  }

  lemma SavedLength(saved: seq<Byte>, otherNames: seq<string>, others: seq<Json>)
    requires |saved| <= MAX_BLOB && |otherNames| == |others| && OthersApart(otherNames)
    ensures var names, elems := BlobNames(|saved|) + otherNames, BlobValues(saved) + others;
      && |names| == |elems| && AtMostOnce(names, LEN) && LastOf(names, elems, LEN) == Some(Int(|saved|))
  {
    hide WordName, Packed, LastOf, BlobNames, BlobValues, FindWord;
    var names, elems := BlobNames(|saved|) + otherNames, BlobValues(saved) + others;
    SavedAt(saved, otherNames, others, 0);
    forall k | 0 < k < |elems| ensures names[k] != LEN {
      SavedAt(saved, otherNames, others, k);
      if k <= WordCount(|saved|) {
        WordNameInjective(k - 1, k - 1);
      }
    }
    LastOfAt(names, elems, LEN, 0);
  }

  lemma SavedWord(saved: seq<Byte>, otherNames: seq<string>, others: seq<Json>, w: nat)
    requires |saved| <= MAX_BLOB && |otherNames| == |others| && OthersApart(otherNames) && w < WORDS
    ensures var names, elems := BlobNames(|saved|) + otherNames, BlobValues(saved) + others;
      && |names| == |elems| && AtMostOnce(names, WordName(w))
      && LastOf(names, elems, WordName(w)) == (if 4 * w < |saved| then Some(Int(ToInt32(Packed(saved, w)))) else None)
  {
    hide WordName, Packed, LastOf, BlobNames, BlobValues, FindWord;
    var names, elems := BlobNames(|saved|) + otherNames, BlobValues(saved) + others;
    SavedAt(saved, otherNames, others, 0);
    WordNameInjective(w, w);
    FindWordFinds(WordName(w), 0, w);
    forall k | 0 <= k < |elems| && k != w + 1 ensures names[k] != WordName(w) {
      SavedAt(saved, otherNames, others, k);
      if 0 < k <= WordCount(|saved|) {
        WordNameInjective(k - 1, w);
      }
    }
    if 4 * w < |saved| {
      SavedAt(saved, otherNames, others, w + 1);
      LastOfAt(names, elems, WordName(w), w + 1);
    } else {
      if w + 1 < |elems| {
        SavedAt(saved, otherNames, others, w + 1);
      }
      NotThere(names, elems, WordName(w));
    }
  }

  /** Saves a blob among other members, closes the text with `buffer()`, parses it and restores: the app gets back the
      bytes it saved, whatever the other members hold. */
  method SaveAndRestore(hooks: Hooks, saved: seq<Byte>, namesBefore: seq<string>, before: seq<Json>,
                        namesAfter: seq<string>, after: seq<Json>, strtod: string -> int)
      returns (ok: bool, delivered: Option<seq<Byte>>)
    requires hooks.saves && hooks.restores && hooks.Fits() && |saved| <= MAX_BLOB
    requires AllWritable(namesBefore, before) && AllWritable(namesAfter, after)
    requires OthersApart(namesBefore) && OthersApart(namesAfter)
    ensures ok && delivered == Some(Padded(saved))
  {
    hide Wf, Writable, Text, TakeMembers, ParseValue, Flatten, BlobNames, BlobValues, OthersApart, AllAsRead, Tree, IsCString;
    var text := Save(hooks, saved, namesBefore, before, namesAfter, after);
    ghost var names, elems := namesBefore + BlobNames(|saved|) + namesAfter, before + BlobValues(saved) + after;
    SavedIsParsed(saved, namesBefore, before, namesAfter, after);
    SavedIsTaken(saved, namesBefore, before, namesAfter, after, strtod);
    var parse := new JsonParse(text, strtod);
    assert Head(parse.View()) == Some(Obj(names, AllAsRead(elems)));
    ok, delivered := Deserialise(hooks, parse);
  }

  lemma SavedIsParsed(saved: seq<Byte>, namesBefore: seq<string>, before: seq<Json>, namesAfter: seq<string>, after: seq<Json>)
    requires |saved| <= MAX_BLOB && AllWritable(namesBefore, before) && AllWritable(namesAfter, after)
    ensures var names, elems := namesBefore + BlobNames(|saved|) + namesAfter, before + BlobValues(saved) + after;
      ParseValue(Text(Obj(names, elems))) == Parsed(Obj(names, AllAsRead(elems)), [])
  {
    hide Wf, Writable, Text, ParseValue, BlobNames, BlobValues, AllWritable, AllAsRead;
    var names, elems := namesBefore + BlobNames(|saved|) + namesAfter, before + BlobValues(saved) + after;
    SavedAreWritable(saved);
    DocumentIsWf(namesBefore, before, BlobNames(|saved|), BlobValues(saved), namesAfter, after);
    ParseInvertsText(Obj(names, elems), []);
    assert Text(Obj(names, elems)) + [] == Text(Obj(names, elems));
  }

  lemma SavedIsTaken(saved: seq<Byte>, namesBefore: seq<string>, before: seq<Json>, namesAfter: seq<string>, after: seq<Json>,
                     strtod: string -> int)
    requires |saved| <= MAX_BLOB && |namesBefore| == |before| && |namesAfter| == |after|
    requires OthersApart(namesBefore) && OthersApart(namesAfter)
    ensures var names, elems := namesBefore + BlobNames(|saved|) + namesAfter, before + BlobValues(saved) + after;
      && |names| == |elems|
      && TakeMembers(names, AllAsRead(elems), strtod, ZEROS, -1).Delivered() == Some(Padded(saved))
  {
    hide TakeMembers, BlobNames, BlobValues, IsBlobName;
    var names, elems := namesBefore + BlobNames(|saved|) + namesAfter, before + BlobValues(saved) + after;
    var readBefore, readAfter := AllAsRead(before), AllAsRead(after);
    SavedAreRead(saved);
    SavedAreWritable(saved);
    assert AllAsRead(elems) == readBefore + BlobValues(saved) + readAfter;
    hide AllAsRead, SameMembers;
    MiddleFirst(namesBefore, readBefore, BlobNames(|saved|), BlobValues(saved), namesAfter, readAfter);
    BlobIsRestored(names, AllAsRead(elems), saved, namesBefore + namesAfter, readBefore + readAfter, strtod);
  }

  method Save(hooks: Hooks, saved: seq<Byte>, namesBefore: seq<string>, before: seq<Json>, namesAfter: seq<string>, after: seq<Json>)
      returns (text: string)
    requires hooks.saves && hooks.Fits() && |saved| <= MAX_BLOB
    requires AllWritable(namesBefore, before) && AllWritable(namesAfter, after)
    ensures text == Text(Obj(namesBefore + BlobNames(|saved|) + namesAfter, before + BlobValues(saved) + after))
  {
    hide Shows, Writable, Filled, Root, Text, BufferState, BlobNames, BlobValues;
    var stream := new JsonStream();
    InitialShows();
    WriteMembers(stream, namesBefore, before, EMPTY);
    ghost var root := Root(EMPTY);
    RootFacts(EMPTY);
    RootOfFilled(namesBefore, before);
    Serialise(hooks, saved, stream, if before == [] then EMPTY else Filled(root, namesBefore, before));
    SavedAreWritable(saved);
    ghost var names, elems := namesBefore + BlobNames(|saved|), before + BlobValues(saved);
    FilledTwice(root, namesBefore, before, BlobNames(|saved|), BlobValues(saved));
    FilledIsNameReady(root, names, elems);
    WriteMembers(stream, namesAfter, after, Filled(root, names, elems));
    FilledTwice(root, names, elems, namesAfter, after);
    FilledWithNothing(Filled(root, names, elems));
    AutoRootText(stream.State(), names + namesAfter, elems + after);
    text := stream.Buffer();
  }

  lemma SavedAreRead(saved: seq<Byte>)
    ensures AllAsRead(BlobValues(saved)) == BlobValues(saved)
  {
    hide Packed;
  }

  lemma SavedAreWritable(saved: seq<Byte>)
    requires |saved| <= MAX_BLOB
    ensures AllWritable(BlobNames(|saved|), BlobValues(saved))
  {
    hide Packed, IntText;
  }
}
