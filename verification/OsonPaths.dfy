// How far reading an OSON document gets: which node stops it, and when nothing ever does.
module OsonPaths {
  import opened Bytes
  import opened Regions
  import opened Oson
  import NumberWire

  /** Container p has a child at q, and every child before it is a document: reading p goes on to q. */
  ghost predicate Visits(r: Render, c: Context, p: nat, q: nat) {
    p < |c.data| && c.data[p] >= 0x80 && BoxAt(c, p).Some?
    && exists before: seq<Member> :: VisitsAfter(r, c, BoxAt(c, p).value, before, q)
  }

  ghost predicate VisitsAfter(r: Render, c: Context, b: Box, before: seq<Member>, q: nat) {
    |before| < b.count && RepresentsMembers(r, c, b, b.isObject, before)
    && ChildName(c, b, |before|).Some? && ChildPos(c, b, |before|) == Some(q)
  }

  /** The nodes reading is inside of, outermost first. */
  ghost predicate Chain(r: Render, c: Context, ps: seq<nat>) {
    ps != [] && (|ps| > 1 ==> Visits(r, c, ps[0], ps[1]) && Chain(r, c, ps[1..]))
  }

  ghost predicate ChainFrom(r: Render, c: Context, p: nat, ps: seq<nat>) {
    Chain(r, c, ps) && ps[0] == p
  }

  predicate Repeats(ps: seq<nat>) {
    exists i, j :: 0 <= i < j < |ps| && ps[i] == ps[j]
  }

  /** Reading from p comes back to a container it is still inside of. */
  ghost predicate Loops(r: Render, c: Context, p: nat) {
    exists ps: seq<nat> :: ChainFrom(r, c, p, ps) && Repeats(ps)
  }

  /** A NUMBER whose digit bytes overrun the decoder's slots. */
  predicate OverrunsAt(data: seq<byte>, q: nat) {
    q < |data| && data[q] < 0x80 && RawScalar(data, q).Some?
    && RawScalar(data, q).value.Number? && NumberWire.Overruns(RawScalar(data, q).value.wire)
  }

  /** Reading from p gets to such a NUMBER. */
  ghost predicate ReachesOverrun(r: Render, c: Context, p: nat) {
    exists ps: seq<nat> :: ChainFrom(r, c, p, ps) && OverrunsAt(c.data, ps[|ps| - 1])
  }

  // ---- what stops a container stops it in one child ----

  lemma {:induction false} StopsInMember(r: Render, c: Context, b: Box, done: seq<Member>, n: nat) returns (q: nat, before: seq<Member>)
    requires RepresentsMembers(r, c, b, b.isObject, done) && |done| <= b.count
    requires var o := ReadMembers(r, c, b, done, n); o == Deep || o == Panic
    ensures VisitsAfter(r, c, b, before, q)
    ensures ReadMembers(r, c, b, done, n) == Deep ==> Read(r, c, q, n) == Deep
    ensures ReadMembers(r, c, b, done, n) == Panic ==> Read(r, c, q, n) == Panic
    decreases b.count - |done|
  {
    var one := ReadMember(r, c, b, |done|, n);
    if one.Doc? {
      ReadIsRepresented(r, c, ChildPos(c, b, |done|).value, n);
      q, before := StopsInMember(r, c, b, done + [one.doc], n);
    } else {
      q, before := ChildPos(c, b, |done|).value, done;
    }
  }

  lemma StopsInChild(r: Render, c: Context, p: nat, n: nat) returns (q: nat)
    requires p < |c.data| && c.data[p] >= 0x80 && n > 0
    requires Read(r, c, p, n) == Deep || Read(r, c, p, n) == Panic
    ensures Visits(r, c, p, q)
    ensures Read(r, c, p, n) == Deep ==> Read(r, c, q, n - 1) == Deep
    ensures Read(r, c, p, n) == Panic ==> Read(r, c, q, n - 1) == Panic
  {
    var b := BoxAt(c, p).value;
    var before;
    q, before := StopsInMember(r, c, b, [], n - 1);
  }

  // ---- reading gets to every child it visits ----

  lemma {:induction false} GetsToMember(r: Render, c: Context, b: Box, before: seq<Member>, q: nat, i: nat, n: nat)
    requires VisitsAfter(r, c, b, before, q) && i <= |before|
    requires ReadMembers(r, c, b, before[..i], n) != Deep
    ensures Read(r, c, q, n) != Deep
    ensures Read(r, c, q, n) == Panic ==> ReadMembers(r, c, b, before[..i], n) == Panic
    decreases |before| - i
  {
    hide Read, Represents, ChildPos, ChildName;
    if i == |before| {
      assert before[..i] == before;
    } else {
      assert RepresentsMember(r, c, b, i, before[i]);
      var at := ChildPos(c, b, i).value;
      RepresentedReads(r, c, at, before[i].value, n);
      assert ReadMember(r, c, b, i, n) == Doc(before[i]);
      assert before[..i] + [before[i]] == before[..i + 1];
      GetsToMember(r, c, b, before, q, i + 1, n);
    }
  }

  /** Unless the bound is too small, reading finds the represented document. */
  lemma RepresentedReads(r: Render, c: Context, p: nat, doc: Json, n: nat)
    requires Represents(r, c, p, doc) && Read(r, c, p, n) != Deep
    ensures Read(r, c, p, n) == Doc(doc)
  {
    ReadFinds(r, c, p, doc, n + Depth(doc));
    ReadStable(r, c, p, n, n + Depth(doc));
  }

  lemma GetsToChild(r: Render, c: Context, p: nat, q: nat, n: nat)
    requires Visits(r, c, p, q) && Read(r, c, p, n) != Deep
    ensures n > 0 && Read(r, c, q, n - 1) != Deep
    ensures Read(r, c, q, n - 1) == Panic ==> Read(r, c, p, n) == Panic
  {
    var b := BoxAt(c, p).value;
    var before: seq<Member> :| VisitsAfter(r, c, b, before, q);
    assert before[..0] == [];
    GetsToMember(r, c, b, before, q, 0, n - 1);
  }

  // ---- looping ----

  /** Along a chain the bound that suffices decreases. */
  lemma {:induction false} ChainDescends(r: Render, c: Context, ps: seq<nat>, i: nat, n: nat)
    requires Chain(r, c, ps) && i < |ps| && Read(r, c, ps[0], n) != Deep
    ensures i <= n && Read(r, c, ps[i], n - i) != Deep
    decreases i
  {
    hide Read, Visits;
    if i > 0 {
      GetsToChild(r, c, ps[0], ps[1], n);
      ChainDescends(r, c, ps[1..], i - 1, n - 1);
    }
  }

  lemma {:induction false} DropChain(r: Render, c: Context, ps: seq<nat>, i: nat)
    requires Chain(r, c, ps) && i < |ps|
    ensures Chain(r, c, ps[i..])
    decreases i
  {
    if i > 0 {
      DropChain(r, c, ps[1..], i - 1);
      assert ps[1..][i - 1..] == ps[i..];
    }
  }

  lemma {:induction false} CycleIsDeep(r: Render, c: Context, ps: seq<nat>, k: nat, n: nat)
    requires Chain(r, c, ps) && 0 < k < |ps| && ps[k] == ps[0]
    ensures Read(r, c, ps[0], n) == Deep
    decreases n
  {
    if Read(r, c, ps[0], n) != Deep {
      ChainDescends(r, c, ps, k, n);
      CycleIsDeep(r, c, ps, k, n - k);
    }
  }

  /** Reading that loops is beyond every bound. */
  lemma LoopsIsDeep(r: Render, c: Context, p: nat, n: nat)
    requires Loops(r, c, p)
    ensures Read(r, c, p, n) == Deep
  {
    hide Read, Visits, Chain;
    var ps: seq<nat> :| ChainFrom(r, c, p, ps) && Repeats(ps);
    var i, j :| 0 <= i < j < |ps| && ps[i] == ps[j];
    if Read(r, c, p, n) != Deep {
      ChainDescends(r, c, ps, i, n);
      DropChain(r, c, ps, i);
      CycleIsDeep(r, c, ps[i..], j - i, n - i);
    }
  }

  lemma ConsChain(r: Render, c: Context, p: nat, q: nat, rest: seq<nat>) returns (ps: seq<nat>)
    requires Visits(r, c, p, q) && ChainFrom(r, c, q, rest)
    ensures ChainFrom(r, c, p, ps) && ps == [p] + rest
  {
    hide Visits;
    ps := [p] + rest;
    assert ps[1..] == rest;
  }

  lemma DeepIsContainer(r: Render, c: Context, p: nat, n: nat)
    requires Read(r, c, p, n) == Deep
    ensures p < |c.data| && c.data[p] >= 0x80
  {
  }

  /** Beyond the bound n there is a chain of n + 1 containers. */
  lemma {:induction false} DeepChain(r: Render, c: Context, p: nat, n: nat) returns (ps: seq<nat>)
    requires Read(r, c, p, n) == Deep
    ensures ChainFrom(r, c, p, ps) && |ps| == n + 1
    ensures forall k :: 0 <= k < |ps| ==> ps[k] < |c.data|
    decreases n
  {
    hide Read, Visits;
    DeepIsContainer(r, c, p, n);
    if n == 0 {
      ps := [p];
    } else {
      var q := StopsInChild(r, c, p, n);
      var rest := DeepChain(r, c, q, n - 1);
      ps := ConsChain(r, c, p, q, rest);
    }
  }

  function Elements(ps: seq<nat>): (qs: set<nat>)
    ensures forall q :: q in ps <==> q in qs
  {
    if ps == [] then {} else Elements(ps[..|ps| - 1]) + {ps[|ps| - 1]}
  }

  function Under(n: nat): (qs: set<nat>)
    ensures |qs| == n
    ensures forall q: nat :: q < n <==> q in qs
  {
    if n == 0 then {} else Under(n - 1) + {n - 1}
  }

  lemma FrontIsDistinct(ps: seq<nat>)
    requires !Repeats(ps) && ps != []
    ensures !Repeats(ps[..|ps| - 1]) && ps[|ps| - 1] !in ps[..|ps| - 1]
  {
    var front := ps[..|ps| - 1];
    forall i, j | 0 <= i < j < |front|
      ensures front[i] != front[j]
    {
      assert ps[i] != ps[j];
    }
  }

  lemma {:induction false} Distinct(ps: seq<nat>)
    requires !Repeats(ps)
    ensures |Elements(ps)| == |ps|
  {
    hide Repeats;
    if ps != [] {
      FrontIsDistinct(ps);
      Distinct(ps[..|ps| - 1]);
    }
  }

  lemma {:induction false} SubsetSize(a: set<nat>, b: set<nat>)
    requires a <= b
    ensures |a| <= |b|
  {
    if a != {} {
      var x :| x in a;
      SubsetSize(a - {x}, b - {x});
    }
  }

  lemma Pigeonhole(ps: seq<nat>, n: nat)
    requires |ps| > n && forall k :: 0 <= k < |ps| ==> ps[k] < n
    ensures Repeats(ps)
  {
    if !Repeats(ps) {
      Distinct(ps);
      SubsetSize(Elements(ps), Under(n));
    }
  }

  /**
    * As many levels as there are bytes are enough: what is deeper than that is deeper than every bound,
    * and is so exactly when reading comes back to a container it is still inside of.
    */
  lemma DeepIffLoops(r: Render, c: Context, p: nat)
    ensures Read(r, c, p, |c.data|) == Deep <==> Loops(r, c, p)
    ensures Read(r, c, p, |c.data|) == Deep ==> forall n: nat :: Read(r, c, p, n) == Deep
  {
    if Read(r, c, p, |c.data|) == Deep {
      var ps := DeepChain(r, c, p, |c.data|);
      Pigeonhole(ps, |c.data|);
    }
    if Loops(r, c, p) {
      forall n: nat
        ensures Read(r, c, p, n) == Deep
      {
        LoopsIsDeep(r, c, p, n);
      }
    }
  }

  /** What reading comes to under any bound, it comes to under this one. */
  lemma EnoughLevels(r: Render, c: Context, p: nat, n: nat)
    requires Read(r, c, p, n) != Deep
    ensures Read(r, c, p, |c.data|) == Read(r, c, p, n)
  {
    DeepIffLoops(r, c, p);
    if n <= |c.data| {
      ReadStable(r, c, p, n, |c.data|);
    } else {
      ReadStable(r, c, p, |c.data|, n);
    }
  }

  // ---- overrunning ----

  lemma ScalarPanics(r: Render, data: seq<byte>, p: nat)
    requires p < |data| && data[p] < 0x80
    ensures Scalar(r, data, p) == Panic <==> OverrunsAt(data, p)
  {
    hide NumberWire.Decode, NumberWire.Overruns;
    var raw := RawScalar(data, p);
    if raw.Some? && raw.value.Number? {
      NumberWire.OverrunsIff(raw.value.wire);
    }
  }

  lemma LeafPanics(r: Render, c: Context, p: nat, n: nat)
    ensures OverrunsAt(c.data, p) ==> Read(r, c, p, n) == Panic
    ensures Read(r, c, p, n) == Panic ==> OverrunsAt(c.data, p) || (p < |c.data| && c.data[p] >= 0x80 && n > 0)
  {
    hide Scalar, RawScalar, NumberWire.Overruns;
    if p < |c.data| && c.data[p] < 0x80 {
      ScalarPanics(r, c.data, p);
    }
  }

  lemma {:induction false} PanicChain(r: Render, c: Context, p: nat, n: nat) returns (ps: seq<nat>)
    requires Read(r, c, p, n) == Panic
    ensures ChainFrom(r, c, p, ps) && OverrunsAt(c.data, ps[|ps| - 1])
    decreases n
  {
    hide Read, Visits, OverrunsAt;
    LeafPanics(r, c, p, n);
    if OverrunsAt(c.data, p) {
      ps := [p];
    } else {
      var q := StopsInChild(r, c, p, n);
      var rest := PanicChain(r, c, q, n - 1);
      ps := ConsChain(r, c, p, q, rest);
    }
  }

  lemma {:induction false} ChainPanics(r: Render, c: Context, ps: seq<nat>, n: nat)
    requires Chain(r, c, ps) && OverrunsAt(c.data, ps[|ps| - 1]) && Read(r, c, ps[0], n) != Deep
    ensures Read(r, c, ps[0], n) == Panic
    decreases |ps|
  {
    hide Read, Visits, OverrunsAt;
    if |ps| == 1 {
      LeafPanics(r, c, ps[0], n);
    } else {
      GetsToChild(r, c, ps[0], ps[1], n);
      ChainPanics(r, c, ps[1..], n - 1);
    }
  }

  /** Reading that ends indexes out of range exactly when it gets to a NUMBER that overruns the digit slots. */
  lemma PanicIffReachesOverrun(r: Render, c: Context, p: nat)
    requires !Loops(r, c, p)
    ensures Read(r, c, p, |c.data|) == Panic <==> ReachesOverrun(r, c, p)
  {
    DeepIffLoops(r, c, p);
    if Read(r, c, p, |c.data|) == Panic {
      var ps := PanicChain(r, c, p, |c.data|);
    }
    if ReachesOverrun(r, c, p) {
      var ps: seq<nat> :| ChainFrom(r, c, p, ps) && OverrunsAt(c.data, ps[|ps| - 1]);
      ChainPanics(r, c, ps, |c.data|);
    }
  }

  /** Reading that ends finds a document exactly when the bytes represent it. */
  lemma DocIffRepresented(r: Render, c: Context, p: nat, doc: Json)
    ensures Read(r, c, p, |c.data|) == Doc(doc) <==> Represents(r, c, p, doc)
  {
    if Represents(r, c, p, doc) {
      ReadFinds(r, c, p, doc, Depth(doc));
      EnoughLevels(r, c, p, Depth(doc));
    }
    if Read(r, c, p, |c.data|) == Doc(doc) {
      ReadIsRepresented(r, c, p, |c.data|);
    }
  }
}
