/** The plug-in upload: a file cut into chunks, each sent as one system-exclusive message of 7-bit bytes. */
module Upload {
  import opened Chars

  const CHUNK := 512
  const HEADER_LENGTH := 8

  predicate AllBelow(s: seq<nat>, bound: nat) {
    forall k :: 0 <= k < |s| ==> s[k] < bound
  }

  /** A path the script can send: ASCII, and no NUL, which ends it. */
  predicate IsPath(path: seq<nat>) {
    AllBelow(path, 0x80) && forall k :: 0 <= k < |path| ==> path[k] != 0
  }

  // ---- Pieces of a message ----------------------------------------------------------------------

  /** A number in ten 7-bit groups, highest first; only the low 32 bits are kept. */
  function Septets(n: nat): (r: seq<nat>)
    ensures |r| == 10 && AllBelow(r, 0x80)
  {
    [0, 0, 0, 0, 0, n / 0x1000_0000 % 0x10, n / 0x20_0000 % 0x80, n / 0x4000 % 0x80, n / 0x80 % 0x80, n % 0x80]
  }

  function Nibbles(bytes: seq<nat>): (r: seq<nat>)
    ensures |r| == 2 * |bytes|
  {
    if bytes == [] then [] else [bytes[0] / 0x10 % 0x10, bytes[0] % 0x10] + Nibbles(bytes[1..])
  }

  function Sum(s: seq<nat>): nat {
    if s == [] then 0 else s[0] + Sum(s[1..])
  }

  /** What the checksum covers: everything from index 7 on. */
  function Covered(arr: seq<nat>): seq<nat> {
    if |arr| < 7 then [] else arr[7..]
  }

  /** `( -sum ) & 0x7f` */
  function CheckSum(arr: seq<nat>): (r: nat)
    ensures r < 0x80
  {
    (0 - Sum(Covered(arr))) % 0x80
  }

  function Header(id: nat): seq<nat> {
    [0xF0, 0x00, 0x21, 0x27, 0x6D, id, 0x7A, 4]
  }

  /** Everything before the checksum. */
  function Body(id: nat, path: seq<nat>, pos: nat, bytes: seq<nat>): (r: seq<nat>)
    ensures |r| == HEADER_LENGTH + |path| + 22 + 2 * |bytes|
  {
    Header(id) + path + [0, if pos == 0 then 1 else 0] + Septets(pos) + Septets(|bytes|) + Nibbles(bytes)
  }

  function Message(id: nat, path: seq<nat>, pos: nat, bytes: seq<nat>): seq<nat> {
    var body := Body(id, path, pos, bytes);
    body + [CheckSum(body)] + [0xF7]
  }

  // ---- The sender -------------------------------------------------------------------------------

  lemma {:induction false} SumAppend(a: seq<nat>, b: seq<nat>)
    ensures Sum(a + b) == Sum(a) + Sum(b)
  {
    if a == [] {
      assert a + b == b;
    } else {
      assert (a + b)[1..] == a[1..] + b;
      SumAppend(a[1..], b);
    }
  }

  lemma SumSnoc(a: seq<nat>, n: nat)
    ensures Sum(a + [n]) == Sum(a) + n
  {
    SumAppend(a, [n]);
    assert [n][1..] == [];
  }

  lemma {:induction false} NibblesSnoc(bytes: seq<nat>, b: nat)
    ensures Nibbles(bytes + [b]) == Nibbles(bytes) + [b / 0x10 % 0x10] + [b % 0x10]
  {
    if bytes == [] {
      assert (bytes + [b])[1..] == [];
    } else {
      assert (bytes + [b])[1..] == bytes[1..] + [b];
      NibblesSnoc(bytes[1..], b);
    }
  }

  /** `addCheckSum` */
  method AddCheckSum(arr: seq<nat>) returns (r: seq<nat>)
    ensures r == arr + [CheckSum(arr)]
  {
    var sum: int := 0;
    var i := 7;
    while i < |arr|
      invariant i >= 7 && (i <= |arr| || i == 7)
      invariant sum == if i <= |arr| then Sum(arr[7..i]) else 0
    {
      assert arr[7..i + 1] == arr[7..i] + [arr[i]];
      SumSnoc(arr[7..i], arr[i]);
      sum := sum + arr[i];
      i := i + 1;
    }
    if |arr| >= 7 {
      assert arr[7..i] == Covered(arr);
    }
    r := arr + [(0 - sum) % 0x80];
  }

  /** Builds the message for the `count` bytes at `pos`, append by append. */
  method BuildMessage(id: nat, path: seq<nat>, data: seq<nat>, pos: nat, count: nat) returns (arr: seq<nat>)
    requires pos + count <= |data|
    ensures arr == Message(id, path, pos, data[pos..pos + count])
  {
    hide Nibbles, Septets, CheckSum;
    arr := Header(id);
    for i := 0 to |path|
      invariant arr == Header(id) + path[..i]
    {
      assert path[..i + 1] == path[..i] + [path[i]];
      arr := arr + [path[i]];
    }
    assert path[..|path|] == path;
    arr := arr + [0];
    arr := arr + [if pos == 0 then 1 else 0];
    arr := arr + Septets(pos);
    arr := arr + Septets(count);
    ghost var front := arr;
    NoNibbles();
    for j := 0 to count
      invariant arr == front + Nibbles(data[pos..pos + j])
    {
      var b := data[pos + j];
      assert data[pos..pos + j + 1] == data[pos..pos + j] + [b];
      NibblesSnoc(data[pos..pos + j], b);
      arr := arr + [b / 0x10 % 0x10];
      arr := arr + [b % 0x10];
    }
    assert front == Header(id) + path + [0, if pos == 0 then 1 else 0] + Septets(pos) + Septets(count);
    arr := AddCheckSum(arr);
    arr := arr + [0xF7];
  }

  lemma NoNibbles()
    ensures Nibbles([]) == []
  {
  }

  /** The messages of the chunks from `pos` on, as far as the first `limit` of them. */
  function Messages(id: nat, path: seq<nat>, data: seq<nat>, pos: nat, limit: nat): seq<seq<nat>>
    requires pos <= |data|
    decreases limit
  {
    if limit == 0 || pos == |data| then []
    else
      var count := if CHUNK < |data| - pos then CHUNK else |data| - pos;
      [Message(id, path, pos, data[pos..pos + count])] + Messages(id, path, data, pos + count, limit - 1)
  }

  /** `uploadFile`; `acked(k)` tells whether the reply to message k is the expected acknowledgement. */
  method UploadFile(id: nat, path: seq<nat>, data: seq<nat>, acked: nat -> bool) returns (ok: bool, sent: seq<seq<nat>>, uploadPos: nat)
    ensures uploadPos <= |data| && sent == Messages(id, path, data, 0, |sent|)
    ensures uploadPos == if 512 * |sent| < |data| then 512 * |sent| else |data|
    ensures sent == [] || CHUNK * (|sent| - 1) < |data|
    ensures forall k :: 0 <= k < |sent| - 1 ==> acked(k)
    ensures ok ==> uploadPos == |data| && (sent != [] ==> acked(|sent| - 1))
    ensures !ok ==> sent != [] && !acked(|sent| - 1)
    ensures sent == [] <==> data == []
  {
    hide Message;
    var size := |data|;
    uploadPos := 0;
    sent := [];
    MessagesNone(id, path, data, 0);
    while true
      invariant uploadPos <= size
      invariant uploadPos == if CHUNK * |sent| < size then CHUNK * |sent| else size
      invariant sent == Messages(id, path, data, 0, |sent|)
      invariant CHUNK * (|sent| - 1) < size || sent == []
      invariant forall k :: 0 <= k < |sent| ==> acked(k)
      decreases size - uploadPos
    {
      var count := if CHUNK < size - uploadPos then CHUNK else size - uploadPos;
      if count == 0 {
        break;
      }
      var arr := BuildMessage(id, path, data, uploadPos, count);
      MessagesSnoc(id, path, data, 0, |sent|);
      sent := sent + [arr];
      uploadPos := uploadPos + count;
      if !acked(|sent| - 1) {
        return false, sent, uploadPos;
      }
    }
    ok := true;
  }

  lemma MessagesNone(id: nat, path: seq<nat>, data: seq<nat>, pos: nat)
    requires pos <= |data|
    ensures Messages(id, path, data, pos, 0) == []
  {
  }

  lemma MessagesUnfold(id: nat, path: seq<nat>, data: seq<nat>, pos: nat, limit: nat)
    requires pos < |data|
    ensures var count := if CHUNK < |data| - pos then CHUNK else |data| - pos;
      Messages(id, path, data, pos, limit) ==
        if limit == 0 then [] else [Message(id, path, pos, data[pos..pos + count])] + Messages(id, path, data, pos + count, limit - 1)
  {
  }

  lemma {:induction false} MessagesSnoc(id: nat, path: seq<nat>, data: seq<nat>, pos: nat, limit: nat)
    requires pos + CHUNK * limit < |data|
    ensures var at := pos + CHUNK * limit;
      var count := if CHUNK < |data| - at then CHUNK else |data| - at;
      && |Messages(id, path, data, pos, limit)| == limit
      && Messages(id, path, data, pos, limit + 1)
         == Messages(id, path, data, pos, limit) + [Message(id, path, at, data[at..at + count])]
    decreases limit
  {
    hide Message, Messages;
    MessagesUnfold(id, path, data, pos, limit + 1);
    MessagesUnfold(id, path, data, pos, limit);
    if limit == 0 {
      MessagesNone(id, path, data, if CHUNK < |data| - pos then pos + CHUNK else |data|);
    } else {
      MessagesSnoc(id, path, data, pos + CHUNK, limit - 1);
      var first := [Message(id, path, pos, data[pos..pos + CHUNK])];
      var at := pos + CHUNK * limit;
      var count := if CHUNK < |data| - at then CHUNK else |data| - at;
      var last := [Message(id, path, at, data[at..at + count])];
      var middle := Messages(id, path, data, pos + CHUNK, limit - 1);
      assert first + (middle + last) == first + middle + last;
    }
  }

  // ---- The receiver -----------------------------------------------------------------------------

  /** The number in ten 7-bit groups. */
  function FromSeptets(s: seq<nat>): nat {
    if s == [] then 0 else 0x80 * FromSeptets(s[..|s| - 1]) + s[|s| - 1]
  }

  function FromNibbles(s: seq<nat>): (r: seq<nat>) {
    if |s| < 2 then [] else [0x10 * s[0] + s[1]] + FromNibbles(s[2..])
  }

  function PathLength(s: seq<nat>): (n: nat)
    ensures n <= |s|
  {
    if s == [] || s[0] == 0 then 0 else 1 + PathLength(s[1..])
  }

  datatype Chunk = Chunk(path: seq<nat>, create: bool, pos: nat, bytes: seq<nat>)

  /** A receiver that takes a message apart and checks its frame, its length and its checksum. */
  function Decode(id: nat, msg: seq<nat>): Option<Chunk> {
    if |msg| < HEADER_LENGTH + 2 || msg[..HEADER_LENGTH] != Header(id) || msg[|msg| - 1] != 0xF7 then None
    else if Sum(msg[7..|msg| - 1]) % 0x80 != 0 then None
    else
      var body := msg[HEADER_LENGTH..|msg| - 2];
      var n := PathLength(body);
      if |body| < n + 22 then None
      else
        var bytes := FromNibbles(body[n + 22..]);
        if FromSeptets(body[n + 12..n + 22]) != |bytes| then None
        else Some(Chunk(body[..n], body[n + 1] == 1, FromSeptets(body[n + 2..n + 12]), bytes))
  }

  /** The ten groups carry exactly the low 32 bits. */
  lemma SeptetsCarry32Bits(n: nat)
    ensures FromSeptets(Septets(n)) == n % TWO_32
  {
    var s := Septets(n);
    assert s[..10] == s;
    forall k | 0 < k <= 10 ensures FromSeptets(s[..k]) == 0x80 * FromSeptets(s[..k - 1]) + s[k - 1] {
      assert s[..k][..k - 1] == s[..k - 1];
    }
    assert FromSeptets(s[..0]) == 0;
    assert FromSeptets(s[..1]) == 0 && FromSeptets(s[..2]) == 0 && FromSeptets(s[..3]) == 0
        && FromSeptets(s[..4]) == 0 && FromSeptets(s[..5]) == 0;
    assert FromSeptets(s[..6]) == s[5];
    assert FromSeptets(s[..7]) == 0x80 * s[5] + s[6];
    assert FromSeptets(s[..8]) == 0x80 * (0x80 * s[5] + s[6]) + s[7];
    assert FromSeptets(s[..9]) == 0x80 * (0x80 * (0x80 * s[5] + s[6]) + s[7]) + s[8];
    assert FromSeptets(s[..10]) == 0x80 * (0x80 * (0x80 * (0x80 * s[5] + s[6]) + s[7]) + s[8]) + s[9];
    GroupsOf32Bits(n);
  }

  lemma GroupsOf32Bits(n: nat)
    ensures 0x80 * (0x80 * (0x80 * (0x80 * (n / 0x1000_0000 % 0x10) + n / 0x20_0000 % 0x80) + n / 0x4000 % 0x80) + n / 0x80 % 0x80) + n % 0x80
         == n % TWO_32
  {
    var q1 := n / 0x80;
    var q2 := q1 / 0x80;
    var q3 := q2 / 0x80;
    var q4 := q3 / 0x80;
    DividedTwice(n);
    assert n % TWO_32 == n - TWO_32 * (q4 / 0x10);
  }

  lemma DividedTwice(n: nat)
    ensures n / 0x4000 == n / 0x80 / 0x80
    ensures n / 0x20_0000 == n / 0x80 / 0x80 / 0x80
    ensures n / 0x1000_0000 == n / 0x80 / 0x80 / 0x80 / 0x80
    ensures n / TWO_32 == n / 0x80 / 0x80 / 0x80 / 0x80 / 0x10
  {
  }

  lemma {:induction false} NibblesCarryBytes(bytes: seq<nat>)
    requires AllBelow(bytes, 0x100)
    ensures FromNibbles(Nibbles(bytes)) == bytes && AllBelow(Nibbles(bytes), 0x10)
  {
    if bytes != [] {
      var s := Nibbles(bytes);
      NibblesCarryBytes(bytes[1..]);
      assert s[2..] == Nibbles(bytes[1..]);
      assert s[0] == bytes[0] / 0x10 && s[1] == bytes[0] % 0x10;
      forall k | 0 <= k < |s| ensures s[k] < 0x10 {
        if k >= 2 {
          assert s[k] == s[2..][k - 2];
        }
      }
    }
  }

  lemma {:induction false} PathLengthFinds(path: seq<nat>, t: seq<nat>)
    requires IsPath(path)
    ensures PathLength(path + [0] + t) == |path|
  {
    var s := path + [0] + t;
    if path == [] {
      assert s[0] == 0;
    } else {
      assert s[1..] == path[1..] + [0] + t;
      PathLengthFinds(path[1..], t);
    }
  }

  /** A message checks out: it is framed, its inner bytes are 7-bit, and from index 7 through the checksum they sum to 0. */
  lemma MessageIsFramed(id: nat, path: seq<nat>, pos: nat, bytes: seq<nat>)
    requires id < 0x80 && IsPath(path) && AllBelow(bytes, 0x100)
    ensures var m := Message(id, path, pos, bytes);
      && m[0] == 0xF0 && m[|m| - 1] == 0xF7 && AllBelow(m[1..|m| - 1], 0x80)
      && Sum(m[7..|m| - 1]) % 0x80 == 0
  {
    hide Septets, Nibbles, CheckSum;
    var body := Body(id, path, pos, bytes);
    var m := Message(id, path, pos, bytes);
    NibblesCarryBytes(bytes);
    BodyIsSevenBit(id, path, pos, bytes);
    assert m[7..|m| - 1] == body[7..] + [CheckSum(body)];
    SumSnoc(body[7..], CheckSum(body));
    CheckSumCloses(body);
    assert m[1..|m| - 1] == body[1..] + [CheckSum(body)];
  }

  /** Where everything stands in a message: the header with the upload operation, the path and its NUL, the create flag, the
      position and the length in ten groups each, highest first, and two nibbles for each byte, high one first. */
  lemma MessageLayout(id: nat, path: seq<nat>, pos: nat, bytes: seq<nat>)
    requires pos < TWO_32 && |bytes| < TWO_32 && AllBelow(bytes, 0x100)
    ensures var m, n := Message(id, path, pos, bytes), |path|;
      && |m| == n + 32 + 2 * |bytes|
      && m[..8] == [0xF0, 0x00, 0x21, 0x27, 0x6D, id, 0x7A, 4] && m[8..n + 8] == path && m[n + 8] == 0
      && m[n + 9] == (if pos == 0 then 1 else 0)
      && GroupsAre(m[n + 10..n + 20], pos) && GroupsAre(m[n + 20..n + 30], |bytes|)
      && forall k :: 0 <= k < |bytes| ==> m[n + 30 + 2 * k] == bytes[k] / 0x10 && m[n + 31 + 2 * k] == bytes[k] % 0x10
  {
    hide Septets, Nibbles, CheckSum, GroupsAre;
    var m, n := Message(id, path, pos, bytes), |path|;
    assert m[n + 10..n + 20] == Septets(pos) && m[n + 20..n + 30] == Septets(|bytes|);
    SeptetsAreGroups(pos);
    SeptetsAreGroups(|bytes|);
    assert m[n + 30..n + 30 + 2 * |bytes|] == Nibbles(bytes);
    forall k | 0 <= k < |bytes| ensures m[n + 30 + 2 * k] == bytes[k] / 0x10 && m[n + 31 + 2 * k] == bytes[k] % 0x10 {
      NibblesAt(bytes, k);
      assert m[n + 30 + 2 * k] == m[n + 30..n + 30 + 2 * |bytes|][2 * k];
      assert m[n + 31 + 2 * k] == m[n + 30..n + 30 + 2 * |bytes|][2 * k + 1];
    }
  }

  /** Five empty groups, four bits and four times seven bits. */
  predicate GroupsAre(s: seq<nat>, n: nat) {
    && |s| == 10 && s[0] == s[1] == s[2] == s[3] == s[4] == 0
    && s[5] * 0x1000_0000 + s[6] * 0x20_0000 + s[7] * 0x4000 + s[8] * 0x80 + s[9] == n
    && s[5] < 0x10 && s[6] < 0x80 && s[7] < 0x80 && s[8] < 0x80 && s[9] < 0x80
  }

  lemma SeptetsAreGroups(n: nat)
    requires n < TWO_32
    ensures GroupsAre(Septets(n), n)
  {
    GroupsOf32Bits(n);
  }

  lemma {:induction false} NibblesAt(bytes: seq<nat>, k: nat)
    requires k < |bytes| && AllBelow(bytes, 0x100)
    ensures Nibbles(bytes)[2 * k] == bytes[k] / 0x10 && Nibbles(bytes)[2 * k + 1] == bytes[k] % 0x10
  {
    if k > 0 {
      NibblesAt(bytes[1..], k - 1);
      assert Nibbles(bytes)[2..] == Nibbles(bytes[1..]);
      assert Nibbles(bytes)[2 * k] == Nibbles(bytes[1..])[2 * (k - 1)];
      assert Nibbles(bytes)[2 * k + 1] == Nibbles(bytes[1..])[2 * (k - 1) + 1];
    }
  }

  lemma BodyIsSevenBit(id: nat, path: seq<nat>, pos: nat, bytes: seq<nat>)
    requires id < 0x80 && IsPath(path) && AllBelow(Nibbles(bytes), 0x10)
    ensures Body(id, path, pos, bytes)[0] == 0xF0 && AllBelow(Body(id, path, pos, bytes)[1..], 0x80)
  {
    hide Septets, Nibbles;
    assert AllBelow(Header(id)[1..], 0x80);
    assert Body(id, path, pos, bytes)[1..]
        == Header(id)[1..] + path + [0, if pos == 0 then 1 else 0] + Septets(pos) + Septets(|bytes|) + Nibbles(bytes);
  }

  lemma CheckSumCloses(body: seq<nat>)
    requires |body| >= 7
    ensures (Sum(body[7..]) + CheckSum(body)) % 0x80 == 0
  {
  }

  lemma BodyParts(path: seq<nat>, flag: nat, a: seq<nat>, b: seq<nat>, c: seq<nat>)
    requires |a| == |b| == 10
    ensures var body, n := path + [0] + ([flag] + a + b + c), |path|;
      body[..n] == path && body[n + 1] == flag && body[n + 2..n + 12] == a && body[n + 12..n + 22] == b && body[n + 22..] == c
  {
  }

  /** The receiver gets back the path, the position, the create flag of the first chunk and the bytes. */
  lemma DecodeInvertsMessage(id: nat, path: seq<nat>, pos: nat, bytes: seq<nat>)
    requires id < 0x80 && IsPath(path) && AllBelow(bytes, 0x100) && pos < TWO_32 && |bytes| < TWO_32
    ensures Decode(id, Message(id, path, pos, bytes)) == Some(Chunk(path, pos == 0, pos, bytes))
  {
    hide Septets, Nibbles, CheckSum, FromSeptets, FromNibbles, Sum, PathLength, Message, IsPath, AllBelow;
    var flag := if pos == 0 then 1 else 0;
    var tail := [flag] + Septets(pos) + Septets(|bytes|) + Nibbles(bytes);
    MessageIsFramed(id, path, pos, bytes);
    MessageShape(id, path, pos, bytes);
    PathLengthFinds(path, tail);
    BodyParts(path, flag, Septets(pos), Septets(|bytes|), Nibbles(bytes));
    SeptetsCarry32Bits(pos);
    SeptetsCarry32Bits(|bytes|);
    NibblesCarryBytes(bytes);
  }

  lemma MessageShape(id: nat, path: seq<nat>, pos: nat, bytes: seq<nat>)
    ensures var m := Message(id, path, pos, bytes);
      && |m| >= HEADER_LENGTH + 2 && m[..HEADER_LENGTH] == Header(id)
      && m[HEADER_LENGTH..|m| - 2]
         == path + [0] + ([if pos == 0 then 1 else 0] + Septets(pos) + Septets(|bytes|) + Nibbles(bytes))
  {
    hide Septets, Nibbles, CheckSum;
  }

  /** The file a receiver builds: each chunk must start where the one before ended, and the first creates the file. */
  function Assemble(id: nat, path: seq<nat>, sent: seq<seq<nat>>): Option<seq<nat>> {
    if sent == [] then Some([])
    else
      match Assemble(id, path, sent[..|sent| - 1])
      case None => None
      case Some(file) =>
        match Decode(id, sent[|sent| - 1])
        case None => None
        case Some(c) =>
          if c.path == path && c.pos == |file| && (c.create <==> |sent| == 1) then Some(file + c.bytes) else None
  }

  lemma {:induction false} AssembleMessages(id: nat, path: seq<nat>, data: seq<nat>, limit: nat)
    requires id < 0x80 && IsPath(path) && AllBelow(data, 0x100) && |data| < TWO_32
    requires CHUNK * (limit - 1) < |data| || limit == 0
    ensures |Messages(id, path, data, 0, limit)| == limit
    ensures Assemble(id, path, Messages(id, path, data, 0, limit))
         == Some(data[..if CHUNK * limit < |data| then CHUNK * limit else |data|])
    decreases limit
  {
    hide Message, Decode, Messages, Assemble, AllBelow, IsPath;
    if limit == 0 {
      MessagesNone(id, path, data, 0);
      AssembleNothing(id, path);
    } else {
      var at := CHUNK * (limit - 1);
      var count := if CHUNK < |data| - at then CHUNK else |data| - at;
      AssembleMessages(id, path, data, limit - 1);
      MessagesSnoc(id, path, data, 0, limit - 1);
      PartIsBelow(data, at, at + count);
      DecodeInvertsMessage(id, path, at, data[at..at + count]);
      AssembleSnoc(id, path, Messages(id, path, data, 0, limit - 1), Message(id, path, at, data[at..at + count]));
      assert data[..at] + data[at..at + count] == data[..at + count];
    }
  }

  lemma AssembleNothing(id: nat, path: seq<nat>)
    ensures Assemble(id, path, []) == Some([])
  {
  }

  lemma AssembleSnoc(id: nat, path: seq<nat>, before: seq<seq<nat>>, m: seq<nat>)
    requires Assemble(id, path, before).Some? && Decode(id, m).Some?
    ensures var file, c := Assemble(id, path, before).value, Decode(id, m).value;
      Assemble(id, path, before + [m])
      == if c.path == path && c.pos == |file| && (c.create <==> before == []) then Some(file + c.bytes) else None
  {
    hide Decode;
    var all := before + [m];
    assert all[..|all| - 1] == before && all[|all| - 1] == m;
  }

  lemma PartIsBelow(data: seq<nat>, from: nat, to: nat)
    requires from <= to <= |data| && AllBelow(data, 0x100)
    ensures AllBelow(data[from..to], 0x100)
  {
  }

  /** A finished upload delivers the file; one that stops at a bad reply delivers the prefix it has sent. */
  method UploadAndAssemble(id: nat, path: seq<nat>, data: seq<nat>, acked: nat -> bool)
      returns (ok: bool, sent: seq<seq<nat>>, ghost file: seq<nat>)
    requires id < 0x80 && IsPath(path) && AllBelow(data, 0x100) && |data| < TWO_32
    ensures Assemble(id, path, sent) == Some(file)
    ensures file <= data && (ok ==> file == data)
    ensures (forall k :: acked(k)) ==> ok
  {
    var uploadPos;
    ok, sent, uploadPos := UploadFile(id, path, data, acked);
    file := data[..uploadPos];
    AssembleMessages(id, path, data, |sent|);
  }
}
