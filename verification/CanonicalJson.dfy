/** `canonical_value_json`: compact JSON with the members of every object sorted
    by key, refusing floats and non-ASCII keys. */
module CanonicalJson {
  import opened Common
  import opened Json

  datatype CanonicalError = NonAsciiKey | FloatingNumber

  // ----- Sorted form -----

  function InsertMember(m: Member, ms: seq<Member>): seq<Member> {
    if ms == [] || Less(m.key, ms[0].key) then [m] + ms else [ms[0]] + InsertMember(m, ms[1..])
  }

  /** The keys of an object in ascending order, with their values. */
  function SortMembers(ms: seq<Member>): (sorted: seq<Member>)
    ensures |sorted| == |ms|
  {
    if ms == [] then [] else
      InsertMemberSize(ms[0], SortMembers(ms[1..]));
      InsertMember(ms[0], SortMembers(ms[1..]))
  }

  lemma {:induction false} InsertMemberSize(m: Member, ms: seq<Member>)
    ensures |InsertMember(m, ms)| == |ms| + 1
  {
    if ms != [] { InsertMemberSize(m, ms[1..]); }
  }

  /** The value with the members of every object sorted by key. */
  function Canon(v: Json): Json
    decreases v, 1
  {
    match v
    case Arr(items) => Arr(CanonItems(items))
    case Obj(members) => Obj(SortMembers(CanonMembers(members)))
    case _ => v
  }

  function CanonItems(items: seq<Json>): (r: seq<Json>)
    ensures |r| == |items| && forall i :: 0 <= i < |items| ==> r[i] == Canon(items[i])
    decreases items, 0
  {
    if items == [] then [] else [Canon(items[0])] + CanonItems(items[1..])
  }

  function CanonMembers(members: seq<Member>): (r: seq<Member>)
    ensures |r| == |members|
    ensures forall i :: 0 <= i < |members| ==> r[i] == Member(members[i].key, Canon(members[i].value))
    decreases members, 0
  {
    if members == [] then []
    else [Member(members[0].key, Canon(members[0].value))] + CanonMembers(members[1..])
  }

  function CanonicalText(v: Json): string {
    Text(Canon(v))
  }

  // ----- Errors, in the order the printer meets them -----

  function FirstError(v: Json): Option<CanonicalError>
    decreases v, 1
  {
    match v
    case Float(_) => Some(FloatingNumber)
    case Arr(items) => FirstItemError(items)
    case Obj(members) => FirstMemberError(members)
    case _ => None
  }

  function FirstItemError(items: seq<Json>): Option<CanonicalError>
    decreases items, 0
  {
    if items == [] then None
    else if FirstError(items[0]).Some? then FirstError(items[0])
    else FirstItemError(items[1..])
  }

  function FirstMemberError(members: seq<Member>): Option<CanonicalError>
    decreases members, 0
  {
    if members == [] then None
    else if !IsAscii(members[0].key) then Some(NonAsciiKey)
    else if FirstError(members[0].value).Some? then FirstError(members[0].value)
    else FirstMemberError(members[1..])
  }

  function Outcome(out: string, v: Json): Result<string, CanonicalError> {
    if FirstError(v).Some? then Err(FirstError(v).value) else Ok(out + Text(v))
  }

  // ----- The printer -----

  lemma {:induction false} ItemsTextSnoc(items: seq<Json>, i: nat)
    requires i < |items|
    ensures ItemsText(items[..i + 1]) == ItemsText(items[..i]) + (if i == 0 then "" else ",") + Text(items[i])
  {
    hide Text;
    if i == 0 {
      assert items[..1] == [items[0]];
    } else {
      ItemsTextSnoc(items[1..], i - 1);
      assert items[..i + 1][1..] == items[1..][..i];
      assert items[..i][1..] == items[1..][..i - 1];
    }
  }

  lemma {:induction false} MembersTextSnoc(ms: seq<Member>, i: nat)
    requires i < |ms|
    ensures MembersText(ms[..i + 1]) == MembersText(ms[..i]) + (if i == 0 then "" else ",") + MemberText(ms[i])
  {
    hide MemberText;
    if i == 0 {
      assert ms[..1] == [ms[0]];
    } else {
      MembersTextSnoc(ms[1..], i - 1);
      assert ms[..i + 1][1..] == ms[1..][..i];
      assert ms[..i][1..] == ms[1..][..i - 1];
    }
  }

  lemma {:induction false} InsertMemberMembers(m: Member, ms: seq<Member>)
    ensures forall x :: x in InsertMember(m, ms) <==> x == m || x in ms
  {
    if ms != [] && !Less(m.key, ms[0].key) {
      InsertMemberMembers(m, ms[1..]);
      assert ms == [ms[0]] + ms[1..];
    }
  }

  lemma {:induction false} SortMembersMembers(ms: seq<Member>)
    ensures forall x :: x in SortMembers(ms) <==> x in ms
  {
    if ms != [] {
      SortMembersMembers(ms[1..]);
      InsertMemberMembers(ms[0], SortMembers(ms[1..]));
      assert ms == [ms[0]] + ms[1..];
    }
  }

  lemma {:induction false} InsertCanon(m: Member, ms: seq<Member>)
    ensures InsertMember(Member(m.key, Canon(m.value)), CanonMembers(ms)) == CanonMembers(InsertMember(m, ms))
  {
    if ms != [] && !Less(m.key, ms[0].key) {
      InsertCanon(m, ms[1..]);
      assert CanonMembers(ms)[1..] == CanonMembers(ms[1..]);
      assert CanonMembers([ms[0]] + InsertMember(m, ms[1..]))[1..] == CanonMembers(InsertMember(m, ms[1..]));
    } else {
      assert ([m] + ms)[1..] == ms;
    }
  }

  /** Sorting first and canonicalising the values afterwards, as the printer
      does, gives the same object. */
  lemma {:induction false} SortCanon(ms: seq<Member>)
    ensures SortMembers(CanonMembers(ms)) == CanonMembers(SortMembers(ms))
  {
    if ms != [] {
      SortCanon(ms[1..]);
      assert CanonMembers(ms)[1..] == CanonMembers(ms[1..]);
      InsertCanon(ms[0], SortMembers(ms[1..]));
    }
  }

  lemma {:induction false} FirstItemErrorFrom(items: seq<Json>, i: nat)
    requires i <= |items| && forall j :: 0 <= j < i ==> FirstError(items[j]).None?
    ensures FirstItemError(items) == FirstItemError(items[i..])
  {
    if i > 0 {
      FirstItemErrorFrom(items[1..], i - 1);
      assert items[1..][i - 1..] == items[i..];
    }
  }

  ghost predicate MemberOk(m: Member) {
    IsAscii(m.key) && FirstError(m.value).None?
  }

  lemma {:induction false} FirstMemberErrorFrom(ms: seq<Member>, i: nat)
    requires i <= |ms| && forall j :: 0 <= j < i ==> MemberOk(ms[j])
    ensures FirstMemberError(ms) == FirstMemberError(ms[i..])
  {
    if i > 0 {
      FirstMemberErrorFrom(ms[1..], i - 1);
      assert ms[1..][i - 1..] == ms[i..];
    }
  }

  method WriteItems(items: seq<Json>, prefix: string) returns (r: Result<string, CanonicalError>)
    ensures r == if FirstItemError(CanonItems(items)).Some? then Err(FirstItemError(CanonItems(items)).value)
                 else Ok(prefix + ItemsText(CanonItems(items)))
    decreases items, 0
  {
    hide Canon, FirstError, Text;
    var out := prefix;
    ghost var cs := CanonItems(items);
    assert prefix + "" == prefix;
    for i := 0 to |items|
      invariant out == prefix + ItemsText(cs[..i])
      invariant forall j :: 0 <= j < i ==> FirstError(cs[j]).None?
    {
      if i != 0 {
        out := out + ",";
      }
      FirstItemErrorFrom(cs, i);
      ItemsTextSnoc(cs, i);
      var written := Write(items[i], out);
      assert FirstItemError(cs[i..])
          == if FirstError(cs[i]).Some? then FirstError(cs[i]) else FirstItemError(cs[i + 1..])
      by { assert cs[i..][1..] == cs[i + 1..]; }
      if written.Err? {
        return written;
      }
      out := written.value;
      assert out == prefix + (ItemsText(cs[..i]) + (if i == 0 then "" else ",") + Text(cs[i]));
    }
    FirstItemErrorFrom(cs, |cs|);
    assert cs[..|cs|] == cs && cs[|cs|..] == [];
    return Ok(out);
  }

  lemma NoMembers()
    ensures MembersText([]) == "" && FirstMemberError([]) == None
  {
  }

  /** While no member failed so far, the error of all is decided from the next on. */
  lemma FirstMemberErrorAt(ms: seq<Member>, i: nat)
    requires i < |ms| && forall j :: 0 <= j < i ==> MemberOk(ms[j])
    ensures !IsAscii(ms[i].key) ==> FirstMemberError(ms) == Some(NonAsciiKey)
    ensures IsAscii(ms[i].key) && FirstError(ms[i].value).Some? ==> FirstMemberError(ms) == FirstError(ms[i].value)
  {
    FirstMemberErrorFrom(ms, i);
    assert ms[i..][1..] == ms[i + 1..];
  }

  method WriteMembers(members: seq<Member>, prefix: string, ghost whole: Json)
    returns (r: Result<string, CanonicalError>)
    requires forall m :: m in members ==> m.value < whole
    ensures r == if FirstMemberError(CanonMembers(members)).Some?
                 then Err(FirstMemberError(CanonMembers(members)).value)
                 else Ok(prefix + MembersText(CanonMembers(members)))
    decreases whole, 0
  {
    hide Canon, FirstError, Text, Quote, Less, IsAscii, FirstMemberError, MembersText, CanonMembers;
    var out := prefix;
    ghost var cs := CanonMembers(members);
    assert MembersText([]) == "" && FirstMemberError([]) == None by { NoMembers(); }
    assert prefix + "" == prefix;
    for i := 0 to |members|
      invariant out == prefix + MembersText(cs[..i])
      invariant forall j :: 0 <= j < i ==> MemberOk(cs[j])
    {
      FirstMemberErrorAt(cs, i);
      if !IsAscii(members[i].key) {
        return Err(NonAsciiKey);
      }
      MembersTextSnoc(cs, i);
      if i != 0 {
        out := out + ",";
      }
      out := out + Quote(members[i].key) + ":";
      assert members[i] in members;
      var written := Write(members[i].value, out);
      if written.Err? {
        return written;
      }
      out := written.value;
      assert out == prefix + (MembersText(cs[..i]) + (if i == 0 then "" else ",") + MemberText(cs[i]));
    }
    FirstMemberErrorFrom(cs, |cs|);
    assert cs[..|cs|] == cs && cs[|cs|..] == [];
    return Ok(out);
  }

  /** What printing an object amounts to, member by member. */
  lemma ObjOutcome(members: seq<Member>, prefix: string)
    ensures var cs := CanonMembers(SortMembers(members));
            Outcome(prefix, Canon(Obj(members)))
            == if FirstMemberError(cs).Some? then Err(FirstMemberError(cs).value)
               else Ok(prefix + "{" + MembersText(cs) + "}")
  {
    SortCanon(members);
    hide SortMembers, MembersText, FirstMemberError, CanonMembers;
    var text := MembersText(SortMembers(CanonMembers(members)));
    assert prefix + ("{" + text + "}") == prefix + "{" + text + "}";
  }

  lemma ArrOutcome(items: seq<Json>, prefix: string)
    ensures var cs := CanonItems(items);
            Outcome(prefix, Canon(Arr(items)))
            == if FirstItemError(cs).Some? then Err(FirstItemError(cs).value)
               else Ok(prefix + "[" + ItemsText(cs) + "]")
  {
    hide ItemsText, FirstItemError, CanonItems;
    var text := ItemsText(CanonItems(items));
    assert prefix + ("[" + text + "]") == prefix + "[" + text + "]";
  }

  lemma SortedSmaller(members: seq<Member>)
    ensures forall m :: m in SortMembers(members) ==> m.value < Obj(members)
  {
    SortMembersMembers(members);
    hide SortMembers;
    forall m | m in SortMembers(members) ensures m.value < Obj(members) {
      var j :| 0 <= j < |members| && members[j] == m;
    }
  }

  /** The inner `write`: appends to the text so far, stopping at the first error. */
  method Write(v: Json, prefix: string) returns (r: Result<string, CanonicalError>)
    ensures r == Outcome(prefix, Canon(v))
    decreases v, 1
  {
    match v {
      case Obj(members) =>
        ObjOutcome(members, prefix);
        SortedSmaller(members);
        hide Outcome, Canon, SortMembers, MembersText, FirstMemberError, CanonMembers;
        var inside := WriteMembers(SortMembers(members), prefix + "{", v);
        if inside.Err? { return inside; }
        return Ok(inside.value + "}");
      case Arr(items) =>
        ArrOutcome(items, prefix);
        hide Outcome, Canon, ItemsText, FirstItemError, CanonItems;
        var inside := WriteItems(items, prefix + "[");
        if inside.Err? { return inside; }
        return Ok(inside.value + "]");
      case Float(_) =>
        return Err(FloatingNumber);
      case _ =>
        return Ok(prefix + Text(v));
    }
  }

  /** `canonical_value_json`. */
  method CanonicalValueJson(v: Json) returns (r: Result<string, CanonicalError>)
    ensures r == if FirstError(Canon(v)).Some? then Err(FirstError(Canon(v)).value) else Ok(CanonicalText(v))
  {
    r := Write(v, "");
    assert "" + CanonicalText(v) == CanonicalText(v);
  }

  // ----- When printing fails -----

  lemma {:induction false} NoErrorIff(v: Json)
    ensures FirstError(v).None? <==> FloatFree(v) && AsciiKeys(v)
    decreases v, 1
  {
    match v
    case Arr(items) => NoItemErrorIff(items);
    case Obj(members) => NoMemberErrorIff(members);
    case _ =>
  }

  lemma {:induction false} NoItemErrorIff(items: seq<Json>)
    ensures FirstItemError(items).None? <==>
            forall i :: 0 <= i < |items| ==> FloatFree(items[i]) && AsciiKeys(items[i])
    decreases items, 0
  {
    if items != [] {
      NoErrorIff(items[0]);
      NoItemErrorIff(items[1..]);
      assert items == [items[0]] + items[1..];
    }
  }

  lemma {:induction false} NoMemberErrorIff(ms: seq<Member>)
    ensures FirstMemberError(ms).None? <==>
            forall i :: 0 <= i < |ms| ==> IsAscii(ms[i].key) && FloatFree(ms[i].value) && AsciiKeys(ms[i].value)
    decreases ms, 0
  {
    if ms != [] {
      NoErrorIff(ms[0].value);
      NoMemberErrorIff(ms[1..]);
      assert ms == [ms[0]] + ms[1..];
    }
  }

  lemma {:induction false} CanonKeepsRefusals(v: Json)
    ensures FloatFree(Canon(v)) <==> FloatFree(v)
    ensures AsciiKeys(Canon(v)) <==> AsciiKeys(v)
    decreases v
  {
    match v
    case Arr(items) =>
      forall i | 0 <= i < |items| ensures FloatFree(Canon(items[i])) <==> FloatFree(items[i])
                                  ensures AsciiKeys(Canon(items[i])) <==> AsciiKeys(items[i])
      {
        CanonKeepsRefusals(items[i]);
      }
    case Obj(members) =>
      var cs := CanonMembers(members);
      forall i | 0 <= i < |members| ensures AlikeMember(cs[i], members[i]) {
        CanonKeepsRefusals(members[i].value);
      }
      assert Canon(v) == Obj(SortMembers(cs));
      hide Canon, CanonMembers, FloatFree, AsciiKeys, SortMembers;
      SortMembersMembers(cs);
      ObjRefusals(cs, members);
      ObjRefusals(SortMembers(cs), cs);
      assert forall i :: 0 <= i < |cs| ==> cs[i] in SortMembers(cs);
    case _ =>
  }

  /** Two members with one key whose values hold a float both or neither, and a
      non-ASCII key both or neither. */
  ghost predicate AlikeMember(m: Member, n: Member) {
    m.key == n.key && (FloatFree(m.value) <==> FloatFree(n.value)) && (AsciiKeys(m.value) <==> AsciiKeys(n.value))
  }

  /** The two refusals of an object depend only on the set of its members. */
  lemma ObjRefusals(xs: seq<Member>, ys: seq<Member>)
    requires (|xs| == |ys| && (forall i :: 0 <= i < |xs| ==> AlikeMember(xs[i], ys[i])))
          || (forall m :: m in xs <==> m in ys)
    ensures FloatFree(Obj(xs)) <==> FloatFree(Obj(ys))
    ensures AsciiKeys(Obj(xs)) <==> AsciiKeys(Obj(ys))
  {
    assert forall i :: 0 <= i < |xs| ==> xs[i] in xs;
    assert forall i :: 0 <= i < |ys| ==> ys[i] in ys;
    assert FloatFree(Obj(xs)) <==> forall i :: 0 <= i < |xs| ==> FloatFree(xs[i].value);
    assert FloatFree(Obj(ys)) <==> forall i :: 0 <= i < |ys| ==> FloatFree(ys[i].value);
  }

  /** The error named is one that occurs: a non-ASCII key, or a float. */
  lemma {:induction false} ErrorIsReal(v: Json)
    ensures FirstError(v) == Some(NonAsciiKey) ==> !AsciiKeys(v)
    ensures FirstError(v) == Some(FloatingNumber) ==> !FloatFree(v)
    decreases v, 1
  {
    match v
    case Arr(items) => ItemErrorIsReal(items);
    case Obj(members) => MemberErrorIsReal(members);
    case _ =>
  }

  lemma {:induction false} ItemErrorIsReal(items: seq<Json>)
    ensures FirstItemError(items) == Some(NonAsciiKey) ==> !AsciiKeys(Arr(items))
    ensures FirstItemError(items) == Some(FloatingNumber) ==> !FloatFree(Arr(items))
    decreases items, 0
  {
    if items != [] {
      ErrorIsReal(items[0]);
      ItemErrorIsReal(items[1..]);
      assert forall i :: 0 <= i < |items[1..]| ==> items[1..][i] == items[i + 1];
    }
  }

  lemma {:induction false} MemberErrorIsReal(members: seq<Member>)
    ensures FirstMemberError(members) == Some(NonAsciiKey) ==> !AsciiKeys(Obj(members))
    ensures FirstMemberError(members) == Some(FloatingNumber) ==> !FloatFree(Obj(members))
    decreases members, 0
  {
    if members != [] {
      ErrorIsReal(members[0].value);
      MemberErrorIsReal(members[1..]);
      assert forall i :: 0 <= i < |members[1..]| ==> members[1..][i] == members[i + 1];
    }
  }

  /** Printing fails exactly when some float or non-ASCII key occurs anywhere. */
  lemma CanonicalSucceedsIff(v: Json)
    ensures FirstError(Canon(v)).None? <==> FloatFree(v) && AsciiKeys(v)
  {
    NoErrorIff(Canon(v));
    CanonKeepsRefusals(v);
  }

  // ----- Round trip, order of keys, independence of member order -----

  /** Parsing the printed text returns the value in sorted form. */
  lemma CanonicalParses(v: Json)
    requires FloatFree(v)
    ensures ParseValue(CanonicalText(v)) == Some((Canon(v), ""))
  {
    CanonKeepsRefusals(v);
    TextParses(Canon(v), "");
    assert CanonicalText(v) + "" == CanonicalText(v);
  }

  ghost predicate DistinctMembers(ms: seq<Member>) {
    forall i, j :: 0 <= i < j < |ms| ==> ms[i].key != ms[j].key
  }

  /** A map has one entry a key, at every depth. */
  ghost predicate DistinctKeys(v: Json)
    decreases v
  {
    match v
    case Arr(items) => forall i :: 0 <= i < |items| ==> DistinctKeys(items[i])
    case Obj(members) => DistinctMembers(members) && forall i :: 0 <= i < |members| ==> DistinctKeys(members[i].value)
    case _ => true
  }

  ghost predicate AscendingMembers(ms: seq<Member>) {
    forall i, j :: 0 <= i < j < |ms| ==> Less(ms[i].key, ms[j].key)
  }

  /** Keys ascend strictly, at every depth. */
  ghost predicate Ascending(v: Json)
    decreases v
  {
    match v
    case Arr(items) => forall i :: 0 <= i < |items| ==> Ascending(items[i])
    case Obj(members) => AscendingMembers(members) && forall i :: 0 <= i < |members| ==> Ascending(members[i].value)
    case _ => true
  }

  lemma {:induction false} InsertAscending(m: Member, ms: seq<Member>)
    requires AscendingMembers(ms) && forall x :: x in ms ==> x.key != m.key
    ensures AscendingMembers(InsertMember(m, ms))
  {
    var out := InsertMember(m, ms);
    if ms == [] {
    } else if Less(m.key, ms[0].key) {
      forall j | 1 <= j < |ms| ensures Less(m.key, ms[j].key) { LessTransitive(m.key, ms[0].key, ms[j].key); }
    } else {
      LessTotal(m.key, ms[0].key);
      InsertAscending(m, ms[1..]);
      InsertMemberMembers(m, ms[1..]);
      forall j | 1 <= j < |out| ensures Less(ms[0].key, out[j].key) {
        assert out[j] == InsertMember(m, ms[1..])[j - 1];
        assert out[j] in InsertMember(m, ms[1..]);
      }
    }
  }

  lemma {:induction false} SortAscending(ms: seq<Member>)
    requires DistinctMembers(ms)
    ensures AscendingMembers(SortMembers(ms))
  {
    if ms != [] {
      SortAscending(ms[1..]);
      SortMembersMembers(ms[1..]);
      InsertAscending(ms[0], SortMembers(ms[1..]));
    }
  }

  lemma {:induction false} CanonAscending(v: Json)
    requires DistinctKeys(v)
    ensures Ascending(Canon(v))
    decreases v
  {
    match v
    case Arr(items) =>
      forall i | 0 <= i < |items| ensures Ascending(Canon(items[i])) { CanonAscending(items[i]); }
    case Obj(members) =>
      var cs := CanonMembers(members);
      forall i | 0 <= i < |members| ensures Ascending(cs[i].value) { CanonAscending(members[i].value); }
      SortAscending(cs);
      SortMembersMembers(cs);
      forall i | 0 <= i < |SortMembers(cs)| ensures Ascending(SortMembers(cs)[i].value) {
        assert SortMembers(cs)[i] in cs;
      }
    case _ =>
  }

  lemma {:induction false} AscendingUnique(xs: seq<Member>, ys: seq<Member>)
    requires AscendingMembers(xs) && AscendingMembers(ys) && forall m :: m in xs <==> m in ys
    ensures xs == ys
  {
    assert xs != [] ==> xs[0] in xs;
    assert ys != [] ==> ys[0] in ys;
    if xs != [] {
      AscendingHead(xs);
      AscendingHead(ys);
      LessAsymmetric(xs[0].key, ys[0].key);
      AscendingUnique(xs[1..], ys[1..]);
      assert xs == [xs[0]] + xs[1..] && ys == [ys[0]] + ys[1..];
    }
  }

  lemma AscendingHead(xs: seq<Member>)
    requires xs != [] && AscendingMembers(xs)
    ensures forall m :: m in xs[1..] <==> m in xs && m != xs[0]
    ensures forall m :: m in xs && m != xs[0] ==> Less(xs[0].key, m.key)
  {
    assert xs == [xs[0]] + xs[1..];
    forall j | 1 <= j < |xs| ensures xs[j] != xs[0] { LessAsymmetric(xs[0].key, xs[j].key); }
  }

  /** A value that is already sorted is its own canonical form. */
  lemma {:induction false} CanonFixed(v: Json)
    requires Ascending(v)
    ensures Canon(v) == v
    decreases v
  {
    match v
    case Arr(items) =>
      forall i | 0 <= i < |items| ensures Canon(items[i]) == items[i] { CanonFixed(items[i]); }
      assert CanonItems(items) == items;
    case Obj(members) =>
      forall i | 0 <= i < |members| ensures Canon(members[i].value) == members[i].value {
        CanonFixed(members[i].value);
      }
      assert CanonMembers(members) == members;
      AscendingDistinct(members);
      SortAscending(members);
      SortMembersMembers(members);
      AscendingUnique(SortMembers(members), members);
    case _ =>
  }

  lemma AscendingDistinct(ms: seq<Member>)
    requires AscendingMembers(ms)
    ensures DistinctMembers(ms)
  {
    forall i, j | 0 <= i < j < |ms| ensures ms[i].key != ms[j].key { LessAsymmetric(ms[i].key, ms[j].key); }
  }

  /** Equality of JSON values as maps: member order does not matter, at any
      depth. */
  ghost predicate SameValue(v: Json, w: Json)
    decreases v, 0
  {
    match v
    case Arr(items) =>
      w.Arr? && |items| == |w.items| && forall i :: 0 <= i < |items| ==> SameValue(items[i], w.items[i])
    case Obj(members) =>
      w.Obj?
      && (forall i :: 0 <= i < |members| ==> FoundIn(members[i], w.members))
      && (forall j :: 0 <= j < |w.members| ==> FindsIn(w.members[j], members))
    case _ => v == w
  }

  ghost predicate FoundIn(m: Member, ns: seq<Member>)
    decreases m, 2
  {
    exists j :: 0 <= j < |ns| && SameMember(m, ns[j])
  }

  ghost predicate FindsIn(n: Member, ms: seq<Member>)
    decreases ms, 2
  {
    exists i :: 0 <= i < |ms| && SameMember(ms[i], n)
  }

  ghost predicate SameMember(m: Member, n: Member)
    decreases m, 1
  {
    m.key == n.key && SameValue(m.value, n.value)
  }

  lemma {:induction false} SameIffCanon(v: Json, w: Json)
    requires DistinctKeys(v) && DistinctKeys(w)
    ensures SameValue(v, w) <==> Canon(v) == Canon(w)
    decreases v
  {
    if v.Arr? && w.Arr? {
      SameItemsIff(v.items, w.items);
    } else if v.Obj? && w.Obj? {
      SameObjectsIff(v.members, w.members);
    }
  }

  lemma {:induction false} SameItemsIff(xs: seq<Json>, ys: seq<Json>)
    requires forall i :: 0 <= i < |xs| ==> DistinctKeys(xs[i])
    requires forall i :: 0 <= i < |ys| ==> DistinctKeys(ys[i])
    ensures SameValue(Arr(xs), Arr(ys)) <==> Canon(Arr(xs)) == Canon(Arr(ys))
    decreases xs
  {
    forall i | 0 <= i < |xs| && 0 <= i < |ys| ensures SameValue(xs[i], ys[i]) <==> Canon(xs[i]) == Canon(ys[i]) {
      SameIffCanon(xs[i], ys[i]);
    }
    var cx, cy := CanonItems(xs), CanonItems(ys);
    if SameValue(Arr(xs), Arr(ys)) { assert cx == cy; }
    assert cx == cy ==> |cx| == |cy| && (forall i :: 0 <= i < |xs| ==> cx[i] == cy[i]);
  }

  lemma {:induction false} SameObjectsIff(xs: seq<Member>, ys: seq<Member>)
    requires DistinctMembers(xs) && forall i :: 0 <= i < |xs| ==> DistinctKeys(xs[i].value)
    requires DistinctMembers(ys) && forall i :: 0 <= i < |ys| ==> DistinctKeys(ys[i].value)
    ensures SameValue(Obj(xs), Obj(ys)) <==> Canon(Obj(xs)) == Canon(Obj(ys))
    decreases xs
  {
    var cx, cy := CanonMembers(xs), CanonMembers(ys);
    forall i, j | 0 <= i < |xs| && 0 <= j < |ys| ensures SameMember(xs[i], ys[j]) <==> cx[i] == cy[j] {
      SameIffCanon(xs[i].value, ys[j].value);
    }
    SameMembersIff(xs, ys, cx, cy);
    SortedSameIff(cx, cy);
    hide SortMembers, SameMember, CanonMembers, DistinctKeys;
  }

  lemma SortedSameIff(xs: seq<Member>, ys: seq<Member>)
    requires DistinctMembers(xs) && DistinctMembers(ys)
    ensures SortMembers(xs) == SortMembers(ys) <==> forall m :: m in xs <==> m in ys
  {
    SortMembersMembers(xs);
    SortMembersMembers(ys);
    SortAscending(xs);
    SortAscending(ys);
    if forall m :: m in xs <==> m in ys {
      AscendingUnique(SortMembers(xs), SortMembers(ys));
    }
  }

  lemma SameMembersIff(xs: seq<Member>, ys: seq<Member>, cx: seq<Member>, cy: seq<Member>)
    requires |xs| == |cx| && |ys| == |cy|
    requires forall i, j :: 0 <= i < |xs| && 0 <= j < |ys| ==> (SameMember(xs[i], ys[j]) <==> cx[i] == cy[j])
    ensures SameValue(Obj(xs), Obj(ys)) <==> forall m :: m in cx <==> m in cy
  {
    hide SameMember, FoundIn, FindsIn;
    forall i | 0 <= i < |xs| ensures FoundIn(xs[i], ys) <==> cx[i] in cy {
      FoundIff(xs[i], ys, cx[i], cy);
    }
    forall j | 0 <= j < |ys| ensures FindsIn(ys[j], xs) <==> cy[j] in cx {
      FindsIff(ys[j], xs, cy[j], cx);
    }
    assert forall i :: 0 <= i < |cx| ==> cx[i] in cx;
    assert forall j :: 0 <= j < |cy| ==> cy[j] in cy;
  }

  lemma FoundIff(x: Member, ys: seq<Member>, c: Member, cy: seq<Member>)
    requires |ys| == |cy| && forall j :: 0 <= j < |ys| ==> (SameMember(x, ys[j]) <==> c == cy[j])
    ensures FoundIn(x, ys) <==> c in cy
  {
    hide SameMember;
  }

  lemma FindsIff(y: Member, xs: seq<Member>, c: Member, cx: seq<Member>)
    requires |xs| == |cx| && forall i :: 0 <= i < |xs| ==> (SameMember(xs[i], y) <==> cx[i] == c)
    ensures FindsIn(y, xs) <==> c in cx
  {
    hide SameMember;
  }

  /** Two values print alike exactly when they are the same map value: the text
      does not depend on member order and determines everything else. */
  lemma CanonicalTextIff(v: Json, w: Json)
    requires FloatFree(v) && FloatFree(w) && DistinctKeys(v) && DistinctKeys(w)
    ensures CanonicalText(v) == CanonicalText(w) <==> SameValue(v, w)
  {
    SameIffCanon(v, w);
    CanonicalParses(v);
    CanonicalParses(w);
  }
}
