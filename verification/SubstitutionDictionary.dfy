/** The substitution table as a dictionary (section 5.1.8 of the Itanium C++ ABI): the k-th entry is
    written S_ for k = 0 and S, the base-36 number k - 1, _ for the others. */
module SubstitutionDictionary {
  import opened Wrappers
  import opened Bytes
  import opened Mangling

  function Digit(v: nat): (c: char)
    requires v < 36
    ensures (IsDigit(c) || IsUpper(c)) && Digit36(c) == v
  {
    if v < 10 then ('0' as nat + v) as char else ('A' as nat + v - 10) as char
  }

  predicate IsBase36(s: string) {
    forall c | c in s :: IsDigit(c) || IsUpper(c)
  }

  function Base36(v: nat): (s: string)
    ensures s != "" && IsBase36(s)
  {
    if v < 36 then [Digit(v)] else Base36(v / 36) + [Digit(v % 36)]
  }

  // ---- The loop over the digits, with 32-bit numbers ----

  /** What the loop makes of digits behind the number `id`: each step wraps around, and is given up
      when it has made the number smaller. */
  function Wrapped(id: nat, digits: string): Option<nat>
    requires IsBase36(digits)
    decreases |digits|
  {
    if digits == "" then Some(id)
    else
      var next := (id * 36 + Digit36(digits[0])) % WORD32;
      if next < id then None else Wrapped(next, digits[1..])
  }

  lemma {:induction false} WrappedAppend(id: nat, a: string, b: string)
    requires IsBase36(a) && IsBase36(b)
    ensures Wrapped(id, a + b) == match Wrapped(id, a) case None => None case Some(v) => Wrapped(v, b)
    decreases |a|
  {
    hide Digit36;
    if a == "" {
      assert a + b == b;
    } else {
      assert (a + b)[1..] == a[1..] + b;
      var next := (id * 36 + Digit36(a[0])) % WORD32;
      if next >= id {
        WrappedAppend(next, a[1..], b);
      }
    }
  }

  /** The guard of the loop on the number itself: no step of `v` that wraps around makes it smaller. */
  predicate Unnoticed(v: nat) {
    v < WORD32 || (Unnoticed(v / 36) && v % WORD32 >= (v / 36) % WORD32)
  }

  lemma WrapStep(q: nat, r: nat)
    requires r < 36
    ensures ((q % WORD32) * 36 + r) % WORD32 == (q * 36 + r) % WORD32
  {
    var m, w := q % WORD32, q / WORD32;
    assert q * 36 + r == m * 36 + r + (w * 36) * WORD32;
    ModPlus(m * 36 + r, w * 36);
  }

  lemma {:induction false} ModPlus(x: nat, k: nat)
    ensures (x + k * WORD32) % WORD32 == x % WORD32
  {
    if k > 0 {
      ModPlus(x, k - 1);
      assert x + k * WORD32 == x + (k - 1) * WORD32 + WORD32;
    }
  }

  lemma WrappedOne(id: nat, c: char)
    requires IsDigit(c) || IsUpper(c)
    ensures Wrapped(id, [c]) == var next := (id * 36 + Digit36(c)) % WORD32; if next < id then None else Some(next)
  {
    hide Digit36;
    assert [c][1..] == "";
  }

  /** The digits of a number are given up exactly where a wrap-around is noticed, and otherwise make
      the number modulo 2^32. */
  lemma {:induction false} WrappedBase36(v: nat)
    ensures Wrapped(0, Base36(v)) == if Unnoticed(v) then Some(v % WORD32) else None
  {
    hide Digit36, Digit, Wrapped, IsBase36, Base36, Unnoticed;
    var q, r := v / 36, v % 36;
    Base36Unfold(v);
    GuardUnfold(v);
    if v < 36 {
      WrappedOne(0, Digit(r));
      SmallDigit(v);
    } else {
      WrappedBase36(q);
      WrappedAppend(0, Base36(q), [Digit(r)]);
      WrappedOne(q % WORD32, Digit(r));
      WrapStep(q, r);
      WrappedLast(v);
    }
  }

  lemma Base36Unfold(v: nat)
    ensures v % 36 < 36 && IsBase36([Digit(v % 36)]) && (v >= 36 ==> v / 36 < v)
    ensures Base36(v) == if v < 36 then [Digit(v % 36)] else Base36(v / 36) + [Digit(v % 36)]
  {
    hide Digit;
  }

  lemma GuardUnfold(v: nat)
    ensures Unnoticed(v) == (v < WORD32 || (Unnoticed(v / 36) && v % WORD32 >= (v / 36) % WORD32))
  {
  }

  lemma SmallDigit(v: nat)
    requires v < 36
    ensures (0 * 36 + v) % WORD32 == v == v % WORD32 && Unnoticed(v) && Digit36(Digit(v % 36)) == v
  {
    hide Digit, Digit36;
  }

  /** A number below 2^32 is noticed at none of its digits. */
  lemma WrappedLast(v: nat)
    requires v >= 36
    ensures v < WORD32 ==> Unnoticed(v / 36) && v % WORD32 >= (v / 36) % WORD32
    ensures (v / 36) * 36 + v % 36 == v && Digit36(Digit(v % 36)) == v % 36
  {
    hide Digit, Digit36;
  }

  /** The loop of the code at those digits: it goes on behind them, or stops. */
  lemma {:induction false} SeqIdReads(s: CString, n: nat, id: nat, digits: string)
    requires IsBase36(digits) && n + |digits| <= |s| && s[n..n + |digits|] == digits
    ensures
      match Wrapped(id, digits)
      case None => SeqId(s, n, id).0 == None
      case Some(v) => SeqId(s, n, id) == SeqId(s, n + |digits|, v)
    decreases |digits|
  {
    hide Digit36;
    if digits != "" {
      assert s[n] == digits[0] && s[n + 1..n + 1 + |digits[1..]|] == digits[1..];
      assert digits[0] in digits && digits[0] != '_';
      var next := (id * 36 + Digit36(digits[0])) % WORD32;
      if next >= id {
        SeqIdReads(s, n + 1, next, digits[1..]);
      }
    }
  }

  function Encode(k: nat): (s: CString)
    ensures |s| > 1
  {
    if k == 0 then "S_" else "S" + Base36(k - 1) + "_"
  }

  function IndexOf(subs: seq<nat>, k: nat): int {
    if k < |subs| then subs[k] else NULL
  }

  /** Where the parts of an entry stand. */
  lemma {:induction false} Parts(pre: string, digits: string, rest: string)
    requires digits != ""
    ensures
      var s, n := pre + ("S" + digits + "_") + rest, |pre| + 1;
      s[|pre|] == 'S' && s[n..n + |digits|] == digits && s[n + |digits|] == '_' && s[n] == digits[0]
  {
    var e := "S" + digits + "_";
    var s, n := pre + e + rest, |pre| + 1;
    assert forall i | 0 <= i < |e| :: s[|pre| + i] == e[i];
    assert s[|pre| + 0] == e[0] && s[|pre| + (1 + |digits|)] == e[1 + |digits|];
    forall i | 0 <= i < |digits| ensures s[n + i] == digits[i] {
      assert s[|pre| + (1 + i)] == e[1 + i];
    }
  }

  /** The digits of an entry other than the first, in the middle of a string. */
  lemma {:induction false} NumberRead(s: CString, n: nat, v: nat)
    requires n + |Base36(v)| < |s| && s[n..n + |Base36(v)|] == Base36(v) && s[n + |Base36(v)|] == '_'
    ensures
      if Unnoticed(v) then SeqId(s, n, 0) == (Some((v + 1) % WORD32), n + 1 + |Base36(v)|)
      else SeqId(s, n, 0).0 == None
  {
    hide *;
    FirstDigit(v);
    WrappedBase36(v);
    SeqIdReads(s, n, 0, Base36(v));
    SeqIdEnd(s, n + |Base36(v)|, v);
  }

  /** The underscore behind the digits adds one to what they made of `v`. */
  lemma SeqIdEnd(s: CString, n: nat, v: nat)
    requires n < |s| && s[n] == '_'
    ensures SeqId(s, n, v % WORD32) == (Some((v + 1) % WORD32), n + 1)
  {
    ModPlus(v % WORD32 + 1, v / WORD32);
    assert v % WORD32 + 1 + (v / WORD32) * WORD32 == v + 1;
  }

  lemma FirstDigit(v: nat)
    ensures Base36(v) != "" && IsBase36(Base36(v))
    ensures var c := Base36(v)[0]; (IsDigit(c) || IsUpper(c)) && c != '_'
  {
    hide Base36;
    assert Base36(v)[0] in Base36(v);
  }

  /** What the code does at an S and an underscore or a digit. */
  lemma {:induction false} SubstitutionOf(s: CString, st: State, prefix: bool)
    requires st.n + 1 < |s| && s[st.n] == 'S'
    requires s[st.n + 1] == '_' || IsDigit(s[st.n + 1]) || IsUpper(s[st.n + 1])
    ensures
      var (id, n) := if s[st.n + 1] == '_' then (Some(0), st.n + 2) else SeqId(s, st.n + 1, 0);
      Substitution(s, st, prefix) == Result(st.(n := n), if id.None? then NULL else IndexOf(st.subs, id.value))
  {
    hide SeqId, StandardSub, MakeStandard, IsDigit, IsUpper;
  }

  /** The code reads the number of an entry, even though it may have wrapped around. */
  predicate Accepted(k: nat) {
    k == 0 || Unnoticed(k - 1)
  }

  lemma EncodeIs(pre: string, k: nat, rest: string)
    ensures Accepted(k) == (k == 0 || Unnoticed(k - 1)) && 0 % WORD32 == 0
    ensures k == 0 ==>
      var s := pre + Encode(k) + rest;
      Encode(k) == "S_" && |s| == |pre| + 2 + |rest| && s[|pre|] == 'S' && s[|pre| + 1] == '_'
    ensures k > 0 ==> Encode(k) == "S" + Base36(k - 1) + "_" && |Encode(k)| == |Base36(k - 1)| + 2
  {
    hide Base36, Unnoticed;
  }

  /** The encoding of any k, wherever it stands: if it is accepted it is consumed, and stands for
      the entry with number k modulo 2^32, if there is one; if not, for nothing. */
  lemma {:induction false} EntryRead(pre: CString, k: nat, rest: CString, st: State, prefix: bool)
    requires st.n == |pre|
    ensures
      var s: CString := pre + Encode(k) + rest;
      var r := Substitution(s, st, prefix);
      if Accepted(k) then r == Result(st.(n := |pre| + |Encode(k)|), IndexOf(st.subs, k % WORD32)) else r.dc == NULL
  {
    hide *;
    EncodeIs(pre, k, rest);
    var s: CString := pre + Encode(k) + rest;
    if k > 0 {
      FirstDigit(k - 1);
      Parts(pre, Base36(k - 1), rest);
      NumberRead(s, |pre| + 1, k - 1);
    }
    SubstitutionOf(s, st, prefix);
  }

  /** So the table is a dictionary for every k, but for those from 2^32 on that are accepted and come
      around to an entry there is.  (The table never has more than 2^32 entries.) */
  lemma {:induction false} Faithful(pre: CString, k: nat, rest: CString, st: State, prefix: bool)
    requires st.n == |pre| && |st.subs| <= WORD32
    ensures
      var s: CString := pre + Encode(k) + rest;
      Substitution(s, st, prefix).dc == IndexOf(st.subs, k) <==>
        k < WORD32 || !Accepted(k) || k % WORD32 >= |st.subs|
  {
    hide Substitution, Encode, Unnoticed;
    EntryRead(pre, k, rest, st, prefix);
    if k < WORD32 {
      SmallAccepted(k);
    }
  }

  lemma SmallAccepted(k: nat)
    requires k < WORD32
    ensures Accepted(k)
  {
  }

  lemma OneMoreDigit(q: nat, digits: string, r: nat)
    requires Base36(q) == digits && q > 0 && r < 36
    ensures Base36(q * 36 + r) == digits + [Digit(r)]
  {
    hide *;
    Divided(q, r);
    Base36Unfold(q * 36 + r);
  }

  lemma Divided(q: nat, r: nat)
    requires r < 36 && q > 0
    ensures (q * 36 + r) / 36 == q && (q * 36 + r) % 36 == r && q * 36 + r >= 36
  {
  }

  lemma NumeralsOfTwo()
    ensures Base36(0xFFFF_FFFF) == "1Z141Z3" && Base36(0x1_FFFF_FFFF) == "3Y283Y7"
  {
    assert Base36(1) == "1" && Base36(3) == "3";
    OneMoreDigit(1, "1", 35);
    OneMoreDigit(71, "1Z", 1);
    OneMoreDigit(2557, "1Z1", 4);
    OneMoreDigit(92056, "1Z14", 1);
    OneMoreDigit(3314017, "1Z141", 35);
    OneMoreDigit(119304647, "1Z141Z", 3);
    OneMoreDigit(3, "3", 34);
    OneMoreDigit(142, "3Y", 2);
    OneMoreDigit(5114, "3Y2", 8);
    OneMoreDigit(184112, "3Y28", 3);
    OneMoreDigit(6628035, "3Y283", 34);
    OneMoreDigit(238609294, "3Y283Y", 7);
  }

  /** Two numbers that come around to the first entry: 2^32, of which no digit wraps around but the
      one that is added then does, and 2^33, of which a digit wraps around unnoticed. */
  lemma ComesAround(x: nat)
    ensures Encode(0x1_0000_0000) == "S1Z141Z3_" && Encode(0x2_0000_0000) == "S3Y283Y7_"
    ensures Substitution("S1Z141Z3_", State(0, [], [x]), false).dc == x
    ensures Substitution("S3Y283Y7_", State(0, [], [x]), false).dc == x
    ensures IndexOf([x], 0x1_0000_0000) == IndexOf([x], 0x2_0000_0000) == NULL
  {
    hide Base36, Substitution;
    NumeralsOfTwo();
    assert Unnoticed(0x1_FFFF_FFFF / 36) && 0x1_FFFF_FFFF % WORD32 >= (0x1_FFFF_FFFF / 36) % WORD32;
    EntryRead("", 0x1_0000_0000, "", State(0, [], [x]), false);
    EntryRead("", 0x2_0000_0000, "", State(0, [], [x]), false);
    assert "" + Encode(0x1_0000_0000) + "" == "S1Z141Z3_" && "" + Encode(0x2_0000_0000) + "" == "S3Y283Y7_";
  }

  /** Later parsing never changes what a number stands for, once it stands for something. */
  lemma {:induction false} EntriesStay(s: CString, st: State, k: nat)
    requires st.n <= |s| && k < |st.subs|
    ensures IndexOf(Type(s, st).st.subs, k) == IndexOf(st.subs, k)
    ensures IndexOf(NameOf(s, st).st.subs, k) == IndexOf(st.subs, k)
  {
    hide Type, NameOf;
    assert Frugal(s, st, Type(s, st), 1, 0) && Frugal(s, st, NameOf(s, st), 2, 1);
  }
}
