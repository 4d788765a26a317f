/** `skipList`: stepping over one field of unknown number, with groups nested to any depth, and the
    wire grammar that says what one field is. */
module WireSkip {
  import opened Wrappers
  import opened Varint

  // ---- What the scanner computes ----

  /** What one pass of the scanner's loop reads: a field without nesting, or a group tag. `next` is the
      position reached, which may lie beyond the end of the buffer: that is checked later. */
  datatype Move = Over(next: nat) | Open(next: nat) | Close(next: nat)

  function Pass(b: seq<byte>, pos: nat): (r: Result<Move>)
    requires pos < |b|
    ensures r.Ok? ==> pos < r.value.next
  {
    var tag :- ReadVarint(b[pos..]);
    AfterTag(b, pos + tag.len, tag.value % 8)
  }

  /** What follows a tag of the given wire type that ends at p. */
  function AfterTag(b: seq<byte>, p: nat, wireType: nat): (r: Result<Move>)
    requires p <= |b|
    ensures r.Ok? ==> p <= r.value.next
  {
    match wireType
    case 0 => var v :- ReadVarint(b[p..]); Ok(Over(p + v.len))
    case 1 => Ok(Over(p + 8))
    case 2 =>
      var length :- ReadVarint(b[p..]);
      if length.value >= TWO63 then Err(InvalidLength) else Ok(Over(p + length.len + length.value))
    case 3 => Ok(Open(p))
    case 4 => Ok(Close(p))
    case 5 => Ok(Over(p + 4))
    case w => Err(IllegalWireType(w))
  }

  /** The scanner's loop, at position `pos` inside `depth` open groups. A position that no int64 can
      hold has wrapped around to a negative one. */
  function SkipFrom(b: seq<byte>, pos: nat, depth: nat): Result<nat>
    decreases |b| - pos
  {
    if pos >= |b| then Err(UnexpectedEOF) else
    var m :- Pass(b, pos);
    if m.Close? && depth == 0 then Err(UnexpectedEndOfGroup) else
    var d := match m case Over(_) => depth case Open(_) => depth + 1 case Close(_) => depth - 1;
    if m.next >= TWO63 then Err(InvalidLength)
    else if d == 0 then Ok(m.next)
    else SkipFrom(b, m.next, d)
  }

  function Skip(b: seq<byte>): Result<nat> {
    SkipFrom(b, 0, 0)
  }

  // ---- The grammar of one field ----

  datatype WireField =
    | VarintField(tag: seq<byte>, val: seq<byte>)
    | Fixed64Field(tag: seq<byte>, body: seq<byte>)
    | LengthField(tag: seq<byte>, length: seq<byte>, payload: seq<byte>)
    | GroupField(tag: seq<byte>, inner: seq<WireField>, end: seq<byte>)
    | Fixed32Field(tag: seq<byte>, body: seq<byte>)

  predicate IsTag(tag: seq<byte>, wireType: nat) {
    IsVarint(tag) && VarVal(tag) % TWO64 % 8 == wireType
  }

  /** The end-group tag may carry any field number: the code does not match it with the start. */
  ghost predicate WellFormed(f: WireField) {
    match f
    case VarintField(tag, val) => IsTag(tag, 0) && IsVarint(val)
    case Fixed64Field(tag, body) => IsTag(tag, 1) && |body| == 8
    case LengthField(tag, length, payload) =>
      IsTag(tag, 2) && IsVarint(length) && VarVal(length) % TWO64 == |payload|
    case GroupField(tag, inner, end) =>
      IsTag(tag, 3) && IsTag(end, 4) && forall g :: g in inner ==> WellFormed(g)
    case Fixed32Field(tag, body) => IsTag(tag, 5) && |body| == 4
  }

  function Wire(f: WireField): seq<byte> {
    match f
    case VarintField(tag, val) => tag + val
    case Fixed64Field(tag, body) => tag + body
    case LengthField(tag, length, payload) => tag + length + payload
    case GroupField(tag, inner, end) => tag + WireAll(inner) + end
    case Fixed32Field(tag, body) => tag + body
  }

  function WireAll(fs: seq<WireField>): seq<byte> {
    if fs == [] then [] else Wire(fs[0]) + WireAll(fs[1..])
  }

  // ---- The scanner accepts every field of the grammar ----

  /** b carries s at position pos. */
  predicate At(b: seq<byte>, pos: nat, s: seq<byte>) {
    pos + |s| <= |b| && b[pos..pos + |s|] == s
  }

  lemma AtSplit(b: seq<byte>, pos: nat, s: seq<byte>, t: seq<byte>)
    requires At(b, pos, s + t)
    ensures At(b, pos, s) && At(b, pos + |s|, t)
  {
    assert b[pos..pos + |s|] == (s + t)[..|s|] == s;
    assert b[pos + |s|..pos + |s + t|] == (s + t)[|s|..] == t;
  }

  lemma ReadVarintAt(b: seq<byte>, pos: nat, v: seq<byte>)
    requires At(b, pos, v) && IsVarint(v)
    ensures ReadVarint(b[pos..]) == Ok(VarintRead(VarVal(v) % TWO64, |v|))
    ensures ScanVarint(b[pos..], 0) == Ok(|v|)
  {
    assert b[pos..] == v + b[pos + |v|..];
    ReadVarintOf(v, b[pos + |v|..]);
  }

  lemma PassOverFlat(b: seq<byte>, pos: nat, f: WireField)
    requires |b| < TWO63 && WellFormed(f) && At(b, pos, Wire(f)) && !f.GroupField?
    ensures |Wire(f)| > 0 && Pass(b, pos) == Ok(Over(pos + |Wire(f)|))
  {
    hide ReadVarint, ScanVarint, VarVal, WireAll, At;
    if f.VarintField? {
      AtSplit(b, pos, f.tag, f.val);
      ReadVarintAt(b, pos, f.tag);
      ReadVarintAt(b, pos + |f.tag|, f.val);
    } else if f.LengthField? {
      PassOverLength(b, pos, f.tag, f.length, f.payload);
    } else {
      AtSplit(b, pos, f.tag, f.body);
      ReadVarintAt(b, pos, f.tag);
    }
  }

  lemma PassOverLength(b: seq<byte>, pos: nat, tag: seq<byte>, length: seq<byte>, payload: seq<byte>)
    requires |b| < TWO63 && At(b, pos, tag + length + payload)
    requires IsTag(tag, 2) && IsVarint(length) && VarVal(length) % TWO64 == |payload|
    ensures Pass(b, pos) == Ok(Over(pos + |tag + length + payload|))
  {
    hide ReadVarint, ScanVarint, VarVal;
    AtSplit(b, pos, tag + length, payload);
    AtSplit(b, pos, tag, length);
    ReadVarintAt(b, pos, tag);
    ReadVarintAt(b, pos + |tag|, length);
  }

  lemma PassOverGroupTag(b: seq<byte>, pos: nat, tag: seq<byte>, open: bool)
    requires At(b, pos, tag) && IsTag(tag, if open then 3 else 4)
    ensures |tag| > 0
    ensures Pass(b, pos) == Ok(if open then Open(pos + |tag|) else Close(pos + |tag|))
  {
    hide ScanVarint, VarVal;
    ReadVarintAt(b, pos, tag);
  }

  /** What follows one complete field, whatever the depth. */
  function AfterField(b: seq<byte>, next: nat, depth: nat): Result<nat> {
    if depth == 0 then Ok(next) else SkipFrom(b, next, depth)
  }

  /** Whatever the depth, one field is passed over in one go. */
  lemma {:induction false} SkipsField(b: seq<byte>, pos: nat, depth: nat, f: WireField)
    requires |b| < TWO63
    requires WellFormed(f) && At(b, pos, Wire(f))
    ensures |Wire(f)| > 0
    ensures SkipFrom(b, pos, depth) == AfterField(b, pos + |Wire(f)|, depth)
    decreases f
  {
    hide Pass, ReadVarint, ScanVarint, VarVal, IsTag, WireAll;
    if f.GroupField? {
      AtSplit(b, pos, f.tag + WireAll(f.inner), f.end);
      AtSplit(b, pos, f.tag, WireAll(f.inner));
      var p := pos + |f.tag|;
      PassOverGroupTag(b, pos, f.tag, true);
      SkipsFields(b, p, depth + 1, f.inner);
      PassOverGroupTag(b, p + |WireAll(f.inner)|, f.end, false);
    } else {
      PassOverFlat(b, pos, f);
    }
  }

  lemma {:induction false} SkipsFields(b: seq<byte>, pos: nat, depth: nat, fs: seq<WireField>)
    requires |b| < TWO63 && depth > 0
    requires At(b, pos, WireAll(fs)) && forall g :: g in fs ==> WellFormed(g)
    ensures SkipFrom(b, pos, depth) == SkipFrom(b, pos + |WireAll(fs)|, depth)
    decreases fs
  {
    hide Pass, ReadVarint, ScanVarint, VarVal, IsTag, Wire;
    if fs != [] {
      AtSplit(b, pos, Wire(fs[0]), WireAll(fs[1..]));
      SkipsField(b, pos, depth, fs[0]);
      SkipsFields(b, pos + |Wire(fs[0])|, depth, fs[1..]);
    }
  }

  // ---- What the scanner accepts is a field of the grammar ----

  /** The rest of an open group: more fields, then its end tag. */
  datatype GroupTail = GroupTail(inner: seq<WireField>, end: seq<byte>)

  ghost predicate TailWellFormed(t: GroupTail) {
    IsTag(t.end, 4) && forall g :: g in t.inner ==> WellFormed(g)
  }

  function WireTails(ts: seq<GroupTail>): seq<byte> {
    if ts == [] then [] else WireAll(ts[0].inner) + ts[0].end + WireTails(ts[1..])
  }

  /** The same tails with one more field in front of the innermost group's rest. */
  function Push(f: WireField, ts: seq<GroupTail>): seq<GroupTail>
    requires ts != []
  {
    [GroupTail([f] + ts[0].inner, ts[0].end)] + ts[1..]
  }

  lemma WirePush(f: WireField, ts: seq<GroupTail>)
    requires ts != []
    ensures WireTails(Push(f, ts)) == Wire(f) + WireTails(ts)
  {
    assert ([f] + ts[0].inner)[1..] == ts[0].inner;
    assert Push(f, ts)[1..] == ts[1..];
    assert Wire(f) + WireAll(ts[0].inner) + ts[0].end + WireTails(ts[1..])
        == Wire(f) + (WireAll(ts[0].inner) + ts[0].end + WireTails(ts[1..]));
  }

  lemma TakeVarint(b: seq<byte>, pos: nat) returns (v: seq<byte>)
    requires pos <= |b| && ReadVarint(b[pos..]).Ok?
    ensures IsVarint(v) && |v| > 0 && At(b, pos, v)
    ensures ReadVarint(b[pos..]) == Ok(VarintRead(VarVal(v) % TWO64, |v|))
  {
    var n := ReadVarint(b[pos..]).value.len;
    v := b[pos..pos + n];
    ScanVarintSound(b[pos..], 0);
    assert b[pos..][..n] == v;
  }

  /** A pass that ends inside the buffer over anything but a group tag reads one complete field. */
  lemma TakeFlatField(b: seq<byte>, pos: nat) returns (f: WireField)
    requires pos < |b| && Pass(b, pos).Ok? && Pass(b, pos).value.Over? && Pass(b, pos).value.next <= |b|
    ensures WellFormed(f) && Wire(f) == b[pos..Pass(b, pos).value.next]
  {
    hide ReadVarint, VarVal, IsVarint, WireAll;
    var tag := TakeVarint(b, pos);
    var p := pos + |tag|;
    var w := VarVal(tag) % TWO64 % 8;
    if w == 0 {
      var val := TakeVarint(b, p);
      f := VarintField(tag, val);
    } else if w == 2 {
      var length := TakeVarint(b, p);
      var q := p + |length|;
      f := LengthField(tag, length, b[q..q + VarVal(length) % TWO64]);
    } else if w == 1 {
      f := Fixed64Field(tag, b[p..p + 8]);
    } else {
      f := Fixed32Field(tag, b[p..p + 4]);
    }
  }

  lemma TakeGroupTag(b: seq<byte>, pos: nat) returns (tag: seq<byte>)
    requires pos < |b| && Pass(b, pos).Ok? && !Pass(b, pos).value.Over?
    ensures IsTag(tag, if Pass(b, pos).value.Open? then 3 else 4)
    ensures Pass(b, pos).value.next <= |b| && tag == b[pos..Pass(b, pos).value.next]
  {
    hide ReadVarint, VarVal, IsVarint;
    tag := TakeVarint(b, pos);
  }

  /** An accepted scan inside open groups reads, for each of them, its remaining fields and its end. */
  lemma {:induction false} SkipSound(b: seq<byte>, pos: nat, depth: nat) returns (ts: seq<GroupTail>)
    requires depth > 0 && pos <= |b|
    requires SkipFrom(b, pos, depth).Ok? && SkipFrom(b, pos, depth).value <= |b|
    ensures |ts| == depth && TailsWellFormed(ts)
    ensures pos <= SkipFrom(b, pos, depth).value
    ensures b[pos..SkipFrom(b, pos, depth).value] == WireTails(ts)
    decreases |b| - pos
  {
    hide Pass, WireAll, Push, IsTag, WellFormed, TailWellFormed;
    var n := SkipFrom(b, pos, depth).value;
    var q := Pass(b, pos).value.next;
    if Pass(b, pos).value.Over? {
      var f := TakeFlatField(b, pos);
      ts := SkipSound(b, q, depth);
      assert b[pos..n] == Wire(f) + b[q..n];
      ts := AddField(f, ts);
    } else if Pass(b, pos).value.Open? {
      var tag := TakeGroupTag(b, pos);
      ts := SkipSound(b, q, depth + 1);
      assert b[pos..n] == tag + b[q..n];
      ts := CloseGroup(tag, ts);
    } else {
      var tag := TakeGroupTag(b, pos);
      ts := [];
      if depth > 1 {
        ts := SkipSound(b, q, depth - 1);
      }
      assert b[pos..n] == tag + b[q..n];
      ts := AddTail(tag, ts);
    }
  }

  ghost predicate TailsWellFormed(ts: seq<GroupTail>) {
    forall t :: t in ts ==> TailWellFormed(t)
  }

  lemma AddField(f: WireField, ts: seq<GroupTail>) returns (us: seq<GroupTail>)
    requires ts != [] && TailsWellFormed(ts) && WellFormed(f)
    ensures |us| == |ts| && TailsWellFormed(us) && WireTails(us) == Wire(f) + WireTails(ts)
  {
    us := Push(f, ts);
    WirePush(f, ts);
    assert ts[0] in ts;
  }

  lemma AddTail(end: seq<byte>, ts: seq<GroupTail>) returns (us: seq<GroupTail>)
    requires TailsWellFormed(ts) && IsTag(end, 4)
    ensures |us| == |ts| + 1 && TailsWellFormed(us) && WireTails(us) == end + WireTails(ts)
  {
    us := [GroupTail([], end)] + ts;
    assert us[1..] == ts;
  }

  lemma Concat4(s: seq<byte>, t: seq<byte>, u: seq<byte>, v: seq<byte>)
    ensures (s + t + u) + v == s + (t + u + v)
  {
  }

  lemma CloseGroup(tag: seq<byte>, ts: seq<GroupTail>) returns (us: seq<GroupTail>)
    requires |ts| >= 2 && TailsWellFormed(ts) && IsTag(tag, 3)
    ensures |us| == |ts| - 1 && TailsWellFormed(us) && WireTails(us) == tag + WireTails(ts)
  {
    var g := GroupField(tag, ts[0].inner, ts[0].end);
    assert ts[0] in ts;
    us := AddField(g, ts[1..]);
    hide WireAll, IsTag;
    Concat4(tag, WireAll(ts[0].inner), ts[0].end, WireTails(ts[1..]));
  }

  /** `skipList` succeeds inside the buffer exactly on the inputs that begin with one complete field of
      the grammar, groups balanced at every level, and returns that field's length. */
  lemma SkipIff(b: seq<byte>, n: nat)
    requires |b| < TWO63
    ensures (Skip(b) == Ok(n) && n <= |b|)
       <==> (exists f :: WellFormed(f) && n <= |b| && Wire(f) == b[..n])
  {
    hide Wire, WellFormed, SkipFrom;
    if Skip(b) == Ok(n) && n <= |b| {
      var f := SkippedField(b);
      assert Wire(f) == b[..n];
    }
    if exists f :: WellFormed(f) && n <= |b| && Wire(f) == b[..n] {
      var f :| WellFormed(f) && n <= |b| && Wire(f) == b[..n];
      assert b[0..n] == b[..n];
      SkipsField(b, 0, 0, f);
    }
  }

  /** The field that an accepted scan has read. */
  lemma SkippedField(b: seq<byte>) returns (f: WireField)
    requires Skip(b).Ok? && Skip(b).value <= |b|
    ensures WellFormed(f) && Wire(f) == b[..Skip(b).value]
  {
    hide Pass, IsTag, WireAll;
    var n := Skip(b).value;
    if Pass(b, 0).value.Open? {
      var tag := TakeGroupTag(b, 0);
      var ts := SkipSound(b, |tag|, 1);
      assert ts[1..] == [] && ts[0] in ts;
      f := GroupField(tag, ts[0].inner, ts[0].end);
      assert b[..n] == tag + b[|tag|..n];
      Concat4(tag, WireAll(ts[0].inner), ts[0].end, []);
    } else {
      f := TakeFlatField(b, 0);
    }
  }

  /** A successful scan that ends inside the buffer looks only at the bytes it passes over. */
  lemma SkipPrefix(a: seq<byte>, c: seq<byte>)
    requires |a| + |c| < TWO63
    requires Skip(a).Ok? && Skip(a).value <= |a|
    ensures Skip(a + c) == Skip(a)
  {
    var n := Skip(a).value;
    var f := SkippedField(a);
    assert (a + c)[0..n] == a[..n];
    SkipsField(a + c, 0, 0, f);
  }

  // ---- The scanner itself ----

  lemma SkipEnd(b: seq<byte>)
    ensures forall pos: nat, depth: nat :: pos >= |b| ==> SkipFrom(b, pos, depth) == Err(UnexpectedEOF)
  {
  }

  /** One pass of the loop, its reading kept apart from what is done with it. */
  lemma SkipStep(b: seq<byte>, pos: nat, depth: nat)
    requires pos < |b|
    ensures Pass(b, pos).Err? ==> SkipFrom(b, pos, depth) == Err(Pass(b, pos).error)
    ensures Pass(b, pos).Ok? ==>
      var m := Pass(b, pos).value;
      SkipFrom(b, pos, depth) ==
        if m.Over? then SkipOn(b, m.next, depth)
        else if m.Open? then SkipOn(b, m.next, depth + 1)
        else if depth == 0 then Err(UnexpectedEndOfGroup)
        else SkipOn(b, m.next, depth - 1)
  {
  }

  function SkipOn(b: seq<byte>, next: nat, depth: nat): Result<nat> {
    if next >= TWO63 then Err(InvalidLength)
    else if depth == 0 then Ok(next)
    else SkipFrom(b, next, depth)
  }

  lemma PassTag(b: seq<byte>, pos: nat)
    requires pos < |b|
    ensures var tag := ReadVarint(b[pos..]);
      Pass(b, pos) == if tag.Err? then Err(tag.error) else AfterTag(b, pos + tag.value.len, tag.value.value % 8)
  {
    hide ReadVarint, AfterTag;
  }

  lemma GroupTags(b: seq<byte>, p: nat)
    requires p <= |b|
    ensures AfterTag(b, p, 3) == Ok(Open(p)) && AfterTag(b, p, 4) == Ok(Close(p))
  {
  }

  /** The cases of the switch that do not touch the depth: the new index, which wraps around to a negative
      one when no int64 holds it. */
  method SkipPayload(dAtA: seq<byte>, at: nat, wireType: nat) returns (r: Result<int>)
    requires at <= |dAtA| < TWO63 && wireType != 3 && wireType != 4
    ensures var m := AfterTag(dAtA, at, wireType);
      if m.Err? then r == Err(m.error)
      else m.value.Over? && r.Ok? && (if r.value < 0 then m.value.next >= TWO63 else r.value == m.value.next < TWO63)
  {
    hide ReadVarint;
    if wireType == 0 {
      var val := DecodeVarint(dAtA, at, TWO64);
      if val.Err? { return Err(val.error); }
      return Ok(at + val.value.len);
    }
    if wireType == 1 { return Ok(WrapInt64(at + 8)); }
    if wireType == 5 { return Ok(WrapInt64(at + 4)); }
    if wireType == 2 {
      var length := DecodeVarint(dAtA, at, TWO64);
      if length.Err? { return Err(length.error); }
      if WrapInt64(length.value.value) < 0 { return Err(InvalidLength); }
      return Ok(WrapInt64(at + length.value.len + length.value.value));
    }
    r := Err(IllegalWireType(wireType));
  }

  method SkipList(dAtA: seq<byte>) returns (r: Result<nat>)
    requires |dAtA| < TWO63
    ensures r == Skip(dAtA)
  {
    hide ReadVarint, SkipFrom, Pass, AfterTag;
    SkipEnd(dAtA);
    var l := |dAtA|;
    var iNdEx := 0;
    var depth := 0;
    while iNdEx < l
      invariant 0 <= iNdEx && 0 <= depth
      invariant Skip(dAtA) == SkipFrom(dAtA, iNdEx, depth)
      decreases l - iNdEx
    {
      SkipStep(dAtA, iNdEx, depth);
      PassTag(dAtA, iNdEx);
      var tag := DecodeVarint(dAtA, iNdEx, TWO64);
      if tag.Err? { return Err(tag.error); }
      iNdEx := iNdEx + tag.value.len;
      GroupTags(dAtA, iNdEx);
      var wireType := tag.value.value % 8;
      if wireType == 3 {
        depth := depth + 1;
      } else if wireType == 4 {
        if depth == 0 { return Err(UnexpectedEndOfGroup); }
        depth := depth - 1;
      } else {
        var next := SkipPayload(dAtA, iNdEx, wireType);
        if next.Err? { return Err(next.error); }
        iNdEx := next.value;
      }
      if iNdEx < 0 { return Err(InvalidLength); }
      if depth == 0 { return Ok(iNdEx); }
    }
    return Err(UnexpectedEOF);
  }
}
