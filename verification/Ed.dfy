/** The lines of ed: a ring of nodes with a cursor, and the substitute command. */
module Ed {
  import opened Wrappers

  type Text = seq<char>

  // ----- the lines and the cursor as values

  /** The lines, the number of the current one, and where its node really is: 0 is the header, 1 the first line. */
  datatype View = View(lines: seq<Text>, num: int, at: nat)

  predicate InStep(v: View) {
    0 <= v.num <= |v.lines| && (v.num > 0 ==> v.at == v.num)
  }

  /** The place of a node may be out of step, but it is on the ring. */
  predicate OnRing(v: View) {
    v.num <= |v.lines| && (v.num > 0 ==> v.at <= |v.lines|)
  }

  /** findLine sets the cursor to the first line if there is none. */
  function Touched(v: View): View {
    if v.num <= 0 && v.lines != [] then v.(num := 1, at := 1) else v
  }

  /** Place p on a ring of n nodes, counted on past the ends. */
  function Around(p: int, n: nat): (r: nat)
    requires n > 0
    ensures r < n
  {
    p % n
  }

  /** The place that findLine walks to: from the cursor, from the first or from the last line. */
  function Found(v: View, num: int): (p: nat)
    requires OnRing(v) && 1 <= num <= |v.lines|
    ensures p <= |v.lines|
  {
    var w := Touched(v);
    if num < w.num / 2 || num > (w.num + |v.lines|) / 2 then num
    else Around(w.at + num - w.num, |v.lines| + 1)
  }

  /** A cursor that is one place behind its number leads one place too far, unless the walk starts at either end. */
  lemma {:induction false} FoundBehind(v: View, num: int, behind: nat)
    requires OnRing(v) && 1 <= num && 0 < v.num && v.at == v.num + behind && num + behind <= |v.lines|
    ensures Found(v, num) == if num < v.num / 2 || num > (v.num + |v.lines|) / 2 then num else num + behind
  {
    SmallMod(num + behind, |v.lines| + 1);
  }

  lemma {:induction false} SmallMod(x: nat, m: nat)
    requires x < m
    ensures Around(x, m) == x
  {
  }

  lemma {:induction false} FoundInStep(v: View, num: int)
    requires InStep(v) && 1 <= num <= |v.lines|
    ensures OnRing(v) && Found(v, num) == num
  {
    FoundBehind(Touched(v), num, 0);
  }

  /** insertLine: a node that is the header stands for the end of the lines. */
  function Inserted(v: View, num: int, data: Text): View
    requires OnRing(v) && 1 <= num <= |v.lines| + 1
  {
    var w := Linked(v, num, data);
    View(w.lines, num, Found(w, num))
  }

  /** The new line is linked in; the cursor does not yet know. */
  function Linked(v: View, num: int, data: Text): (w: View)
    requires OnRing(v) && 1 <= num <= |v.lines| + 1
    ensures OnRing(w) && |w.lines| == |v.lines| + 1
  {
    var p := if num > |v.lines| || Found(v, num) == 0 then |v.lines| + 1 else Found(v, num);
    Placed(if num > |v.lines| then v else Touched(v), data, p)
  }

  /** A line becomes the p-th; the cursor stays on its node. */
  function Placed(v: View, data: Text, p: nat): View
    requires 1 <= p <= |v.lines| + 1
  {
    View(v.lines[..p - 1] + [data] + v.lines[p - 1..], v.num, if v.at >= p then v.at + 1 else v.at)
  }

  /** The cursor when the place of the new line is looked up. */
  function Before(v: View, num: int): int {
    if num > |v.lines| then v.num else Touched(v).num
  }

  lemma {:induction false} InsertedLines(v: View, num: int, data: Text)
    requires InStep(v) && 1 <= num <= |v.lines| + 1
    ensures OnRing(v) && Inserted(v, num, data).lines == v.lines[..num - 1] + [data] + v.lines[num - 1..]
    ensures Inserted(v, num, data).num == num
  {
    hide Found;
    if num <= |v.lines| { FoundInStep(v, num); }
  }

  lemma {:induction false} LinkedCursor(v: View, num: int, data: Text)
    requires InStep(v) && 1 <= num <= |v.lines| + 1
    ensures OnRing(v) && Linked(v, num, data).num == Before(v, num)
    ensures Before(v, num) > 0 ==>
              Linked(v, num, data).at == if Before(v, num) >= num then Before(v, num) + 1 else Before(v, num)
  {
    hide Found;
    if num <= |v.lines| { FoundInStep(v, num); }
  }

  /** The cursor stays in step exactly if the line is inserted behind it, or before the
      first half of what precedes it. */
  lemma {:induction false} InsertedInStep(v: View, num: int, data: Text)
    requires InStep(v) && 1 <= num <= |v.lines| + 1
    ensures OnRing(v) && (InStep(Inserted(v, num, data)) <==> num > Before(v, num) || num < Before(v, num) / 2)
  {
    hide Found, Linked;
    InsertedLines(v, num, data);
    LinkedCursor(v, num, data);
    var w := Linked(v, num, data);
    if w.num <= 0 {
      FoundInStep(w, num);
    } else {
      FoundBehind(w, num, if w.num >= num then 1 else 0);
    }
  }

  /** Inserting before the current line puts a second line behind it: the lines typed do not stay together. */
  lemma {:induction false} SecondLineAstray()
    ensures var v := View(["a", "b", "c", "d"], 1, 1);
            OnRing(v) && OnRing(Inserted(v, 1, "x"))
            && Inserted(Inserted(v, 1, "x"), 2, "y").lines == ["x", "a", "y", "b", "c", "d"]
  {
    hide Found, Linked;
    var v := View(["a", "b", "c", "d"], 1, 1);
    InsertedLines(v, 1, "x");
    LinkedCursor(v, 1, "x");
    FoundBehind(Linked(v, 1, "x"), 1, 1);
    var w := View(["x", "a", "b", "c", "d"], 1, 2);
    assert Inserted(v, 1, "x") == w;
    FoundBehind(w, 2, 1);
    LinkedAt(w, 2, "y", 3);
    assert w.lines[..2] + ["y"] + w.lines[2..] == ["x", "a", "y", "b", "c", "d"];
  }

  lemma {:induction false} LinkedAt(v: View, num: int, data: Text, p: nat)
    requires OnRing(v) && 1 <= num <= |v.lines| && 0 < p == Found(v, num)
    ensures Linked(v, num, data).lines == v.lines[..p - 1] + [data] + v.lines[p - 1..]
  {
    hide Found;
  }

  /** Inserting lines one after the other behind the cursor. */
  function InsertedAll(v: View, num: int, typed: seq<Text>): View
    requires InStep(v) && 1 <= num <= |v.lines| + 1 && Before(v, num) < num
    decreases |typed|
  {
    if typed == [] then v
    else
      InsertedBehind(v, num, typed[0]);
      InsertedAll(Inserted(v, num, typed[0]), num + 1, typed[1..])
  }

  lemma {:induction false} InsertedBehind(v: View, num: int, data: Text)
    requires InStep(v) && 1 <= num <= |v.lines| + 1 && Before(v, num) < num
    ensures OnRing(v) && InStep(Inserted(v, num, data)) && |Inserted(v, num, data).lines| == |v.lines| + 1
    ensures Before(Inserted(v, num, data), num + 1) == num
  {
    hide Found, Linked;
    InsertedLines(v, num, data);
    InsertedInStep(v, num, data);
  }

  /** Then they stay together, and the last one becomes the current line. */
  lemma {:induction false} TogetherBehind(v: View, num: int, typed: seq<Text>)
    requires InStep(v) && 1 <= num <= |v.lines| + 1 && Before(v, num) < num
    ensures var w := InsertedAll(v, num, typed);
            InStep(w) && w.lines == v.lines[..num - 1] + typed + v.lines[num - 1..]
            && w.num == if typed == [] then v.num else num + |typed| - 1
    decreases |typed|
  {
    hide Found, Linked, Inserted;
    if typed == [] {
      assert v.lines[..num - 1] + typed + v.lines[num - 1..] == v.lines;
    } else {
      InsertedBehind(v, num, typed[0]);
      InsertedLines(v, num, typed[0]);
      var u := Inserted(v, num, typed[0]);
      TogetherBehind(u, num + 1, typed[1..]);
      assert u.lines[..num] == v.lines[..num - 1] + [typed[0]] && u.lines[num..] == v.lines[num - 1..];
      assert [typed[0]] + typed[1..] == typed;
    }
  }

  // ----- which nodes a command for a range handles

  /** The walk leads to the line asked for exactly if it starts at either end or from a cursor in step. */
  lemma {:induction false} FoundExactly(v: View, num: int)
    requires OnRing(v) && 1 <= num <= |v.lines|
    ensures var w := Touched(v);
            Found(v, num) == num <==> num < w.num / 2 || num > (w.num + |v.lines|) / 2 || w.at == w.num
  {
    var w, n := Touched(v), |v.lines| + 1;
    var d := w.at - w.num;
    SmallMod(num, n);
    if num + d < 0 {
      AroundIs(num + d, -1, num + d + n, n);
    } else if num + d < n {
      SmallMod(num + d, n);
    } else {
      AroundIs(num + d, 1, num + d - n, n);
    }
  }

  lemma {:induction false} AroundIs(x: int, q: int, r: nat, n: nat)
    requires r < n && x == n * q + r
    ensures Around(x, n) == r
  {
    ModIs(x, q, r, n);
  }

  /** Place q is among the count places from p on, around a ring with n nodes. */
  predicate Handled(p: nat, count: nat, n: nat, q: nat)
    requires n > 0
  {
    Around(q - p, n) < count
  }

  /** k steps from place p. */
  lemma {:induction false} StepsBack(p: nat, k: nat, n: nat)
    requires p < n && k < n
    ensures Around(p + k, n) == (if p + k < n then p + k else p + k - n) && Around(Around(p + k, n) - p, n) == k
  {
    if p + k < n {
      SmallMod(p + k, n);
      SmallMod(k, n);
    } else {
      AroundIs(p + k, 1, p + k - n, n);
      AroundIs(k - n, -1, k, n);
    }
  }

  /** The nodes that deleteLines and subCommand come to are those of the range exactly if the first one is. */
  lemma {:induction false} HandledExactly(v: View, num1: int, num2: int)
    requires OnRing(v) && 1 <= num1 <= num2 <= |v.lines|
    ensures var p, count, n := Found(v, num1), num2 - num1 + 1, |v.lines| + 1;
            (forall q: nat :: q < n ==> (Handled(p, count, n, q) <==> num1 <= q <= num2)) <==> p == num1
  {
    hide Found, Around;
    var p, count, n := Found(v, num1), num2 - num1 + 1, |v.lines| + 1;
    if p == num1 {
      forall q: nat | q < n ensures Handled(p, count, n, q) <==> num1 <= q <= num2 {
        PlaceBehind(p, q, n);
      }
    } else {
      SmallMod(0, n);
      AroundIs(-1, -1, n - 1, n);
      assert Handled(p, count, n, p);
      assert p > 0 ==> !Handled(p, count, n, p - 1);
    }
  }

  // ----- deleting

  /** A deletion can come to the header, which was never allocated but is freed, or free the node of curLine. */
  datatype Fault = HeaderFreed | CursorFreed
  datatype Deletion = Deleted(view: View) | Undefined(fault: Fault)

  /** The cursor leaves the range, behind it if there is a line, else before it, else it becomes 0. */
  function MovedOff(w: View, num1: int, num2: int): (u: View)
    requires OnRing(w) && 0 < w.num && 1 <= num1 <= num2 <= |w.lines|
    ensures OnRing(u) && u.lines == w.lines && (u.num < num1 || u.num > num2)
  {
    if w.num < num1 || w.num > num2 then w
    else if num2 < |w.lines| then w.(num := num2 + 1, at := Found(w, num2 + 1))
    else if num1 > 1 then w.(num := num1 - 1, at := Found(w, num1 - 1))
    else w.(num := 0)
  }

  /** What deleteLines makes of the lines and the cursor. */
  function DeletionOf(v: View, num1: int, num2: int): Deletion
    requires OnRing(v)
  {
    if num1 < 1 || num2 > |v.lines| || num1 > num2 then Deleted(v)
    else CutOutOf(MovedOff(Touched(v), num1, num2), Found(v, num1), num1, num2)
  }

  /** As many nodes as the range has lines are taken out from place p on; the cursor has left the range. */
  function CutOutOf(u: View, p: nat, num1: int, num2: int): Deletion
    requires OnRing(u) && 1 <= num1 <= num2 <= |u.lines|
  {
    var count := num2 - num1 + 1;
    if p < 1 || p + count > |u.lines| + 1 then Undefined(HeaderFreed)
    else if u.num > 0 && p <= u.at < p + count then Undefined(CursorFreed)
    else
      Deleted(View(u.lines[..p - 1] + u.lines[p - 1 + count..],
                   if u.num > num2 then u.num - count else u.num,
                   if u.at >= p + count then u.at - count else u.at))
  }

  /** The number of the current line after the lines from num1 to num2 have been deleted. */
  function CursorAfter(c: int, last: int, num1: int, num2: int): int {
    if c < num1 then c
    else if c > num2 then c - (num2 - num1 + 1)
    else if num2 < last then num1
    else num1 - 1
  }

  /** From a cursor in step the lines of the range are deleted, and the cursor stays in step. */
  lemma {:induction false} DeletedInStep(v: View, num1: int, num2: int)
    requires InStep(v) && 1 <= num1 <= num2 <= |v.lines|
    ensures OnRing(v) && DeletionOf(v, num1, num2).Deleted?
    ensures var w := DeletionOf(v, num1, num2).view;
            && InStep(w) && w.lines == v.lines[..num1 - 1] + v.lines[num2..]
            && w.num == CursorAfter(Touched(v).num, |v.lines|, num1, num2)
  {
    hide Found;
    FoundInStep(v, num1);
    if num2 < |v.lines| { FoundInStep(Touched(v), num2 + 1); }
    if num1 > 1 { FoundInStep(Touched(v), num1 - 1); }
  }

  /** Whatever the cursor, the lines that go are those of the range if the first node is that of the line asked for;
      then the header stays. */
  lemma {:induction false} DeletedRange(v: View, num1: int, num2: int)
    requires OnRing(v) && 1 <= num1 <= num2 <= |v.lines| && Found(v, num1) == num1
    ensures DeletionOf(v, num1, num2) != Undefined(HeaderFreed)
    ensures DeletionOf(v, num1, num2).Deleted? ==>
              DeletionOf(v, num1, num2).view.lines == v.lines[..num1 - 1] + v.lines[num2..]
  {
    hide Found;
  }

  /** A deletion is undefined exactly if it comes to the header, or to the node on which the cursor is then. */
  lemma {:induction false} FaultExactly(v: View, num1: int, num2: int)
    requires OnRing(v) && 1 <= num1 <= num2 <= |v.lines|
    ensures OnRing(Touched(v)) && Touched(v).lines == v.lines && Touched(v).num > 0
    ensures var p, count, n, u := Found(v, num1), num2 - num1 + 1, |v.lines| + 1, MovedOff(Touched(v), num1, num2);
            && (DeletionOf(v, num1, num2) == Undefined(HeaderFreed) <==> Handled(p, count, n, 0))
            && (DeletionOf(v, num1, num2) == Undefined(CursorFreed) <==>
                  !Handled(p, count, n, 0) && u.num > 0 && Handled(p, count, n, u.at))
  {
    hide Found, MovedOff, Around;
    var p, count, n, u := Found(v, num1), num2 - num1 + 1, |v.lines| + 1, MovedOff(Touched(v), num1, num2);
    PlaceBehind(p, 0, n);
    if u.num > 0 { PlaceBehind(p, u.at, n); }
  }

  lemma {:induction false} PlaceBehind(p: nat, q: nat, n: nat)
    requires p < n && q < n
    ensures Around(q - p, n) == if q >= p then q - p else q - p + n
  {
    if q >= p { SmallMod(q - p, n); } else { AroundIs(q - p, -1, q - p + n, n); }
  }

  /** The cursor after a line has been inserted before the last of two. */
  lemma {:induction false} OutOfStep()
    ensures var v := View(["a", "b"], 2, 2);
            OnRing(v) && Inserted(v, 2, "x") == View(["a", "x", "b"], 2, 3)
  {
    hide Found, Linked;
    var v := View(["a", "b"], 2, 2);
    InsertedLines(v, 2, "x");
    LinkedCursor(v, 2, "x");
    FoundFarther(Linked(v, 2, "x"), 2, 3);
    assert v.lines[..1] + ["x"] + v.lines[1..] == ["a", "x", "b"];
  }

  lemma {:induction false} FoundFarther(v: View, num: int, p: nat)
    requires OnRing(v) && 1 <= num == v.num && v.at == p <= |v.lines|
    ensures Found(v, num) == p || num > (v.num + |v.lines|) / 2 || num < v.num / 2
  {
    SmallMod(p, |v.lines| + 1);
  }

  /** Then deleting the last two lines frees the header, deleting the last one the node of the cursor. */
  lemma {:induction false} HeaderGone()
    ensures var v := View(["a", "x", "b"], 2, 3);
            && OnRing(v) && v == Inserted(View(["a", "b"], 2, 2), 2, "x")
            && DeletionOf(v, 2, 3) == Undefined(HeaderFreed) && DeletionOf(v, 3, 3) == Undefined(CursorFreed)
  {
    hide Found, Inserted;
    OutOfStep();
    var v := View(["a", "x", "b"], 2, 3);
    FoundFarther(v, 2, 3);
    FoundBehind(v.(at := 2), 3, 0);
    FoundExactly(v, 3);
  }

  /** And deleting the first of five lines can take the second. */
  lemma {:induction false} OtherLineGone()
    ensures var v := View(["x", "a", "b", "c", "d"], 1, 2);
            && OnRing(v) && v == Inserted(View(["a", "b", "c", "d"], 1, 1), 1, "x")
            && DeletionOf(v, 1, 1) == Deleted(View(["x", "b", "c", "d"], 1, 2))
  {
    hide Found, Linked;
    var u, v := View(["a", "b", "c", "d"], 1, 1), View(["x", "a", "b", "c", "d"], 1, 2);
    InsertedLines(u, 1, "x");
    LinkedCursor(u, 1, "x");
    FoundBehind(Linked(u, 1, "x"), 1, 1);
    FoundBehind(v, 1, 1);
    FoundBehind(v, 2, 1);
    assert v.lines[..1] + v.lines[2..] == ["x", "b", "c", "d"];
  }

  // ----- searching and replacing in a line

  predicate OccursAt(s: Text, t: Text, i: nat) {
    i + |t| <= |s| && s[i..i + |t|] == t
  }

  /** The first place from on where t occurs, or -1. */
  function Find(s: Text, t: Text, from: nat): (r: int)
    ensures r == -1 || (from <= r && OccursAt(s, t, r))
    ensures forall i :: from <= i <= |s| && (r == -1 || i < r) ==> !OccursAt(s, t, i)
    decreases |s| - from
  {
    if from > |s| then -1
    else if OccursAt(s, t, from) then from
    else Find(s, t, from + 1)
  }

  lemma {:induction false} FindIs(s: Text, t: Text, from: nat, r: nat)
    requires from <= r && OccursAt(s, t, r) && forall i :: from <= i < r ==> !OccursAt(s, t, i)
    ensures Find(s, t, from) == r
  {
  }

  lemma {:induction false} FindFrom(s: Text, t: Text, from: nat)
    requires from <= |s|
    ensures Find(s, t, from) == var r := Find(s[from..], t, 0); if r == -1 then -1 else from + r
  {
    var rest := s[from..];
    assert forall i :: 0 <= i <= |rest| ==> (OccursAt(rest, t, i) <==> OccursAt(s, t, from + i)) by {
      forall i | 0 <= i <= |rest| ensures OccursAt(rest, t, i) <==> OccursAt(s, t, from + i) {
        if i + |t| <= |rest| { assert rest[i..i + |t|] == s[from + i..from + i + |t|]; }
      }
    }
    var r := Find(rest, t, 0);
    if r == -1 {
      assert forall j :: from <= j <= |s| ==> !OccursAt(s, t, j) by {
        forall j | from <= j <= |s| ensures !OccursAt(s, t, j) { assert !OccursAt(rest, t, j - from); }
      }
    } else {
      forall j | from <= j < from + r ensures !OccursAt(s, t, j) { assert !OccursAt(rest, t, j - from); }
      FindIs(s, t, from, from + r);
    }
  }

  /** s with the first occurrence of oldStr replaced, or with all of them, from left to right and
      none in what was put in. */
  function Replaced(s: Text, oldStr: Text, newStr: Text, all: bool): Text
    requires oldStr != []
    decreases |s|
  {
    var i := Find(s, oldStr, 0);
    if i == -1 then s
    else
      var rest := s[i + |oldStr|..];
      s[..i] + newStr + if all then Replaced(rest, oldStr, newStr, all) else rest
  }

  /** memchr: the first place of c among the left characters from cp on, or -1. */
  method MemChr(s: Text, cp: nat, c: char, left: nat) returns (r: int)
    requires cp + left <= |s|
    ensures r == -1 ==> forall i :: cp <= i < cp + left ==> s[i] != c
    ensures r != -1 ==> cp <= r < cp + left && s[r] == c && forall i :: cp <= i < r ==> s[i] != c
  {
    for k := cp to cp + left
      invariant forall i :: cp <= i < k ==> s[i] != c
    {
      if s[k] == c { return k; }
    }
    return -1;
  }

  /** findString: nothing is found behind the end of the line. */
  method FindString(s: Text, str: Text, offset: nat) returns (r: int)
    requires str != []
    ensures r == Find(s, str, offset)
  {
    hide OccursAt;
    var cp, left := offset, |s| - offset;
    while left >= |str|
      invariant offset <= cp && cp + left == |s| && forall i :: offset <= i < cp ==> !OccursAt(s, str, i)
      decreases left
    {
      var ncp := MemChr(s, cp, str[0], left);
      NoneBefore(s, str, cp, if ncp == -1 then |s| else ncp);
      if ncp == -1 {
        NoneLeft(s, str, offset, |s|);
        return -1;
      }
      left := left - (ncp - cp);
      cp := ncp;
      if left < |str| { break; }
      Occurrence(s, str, cp);
      if s[cp..cp + |str|] == str {
        FindIs(s, str, offset, cp);
        return cp;
      }
      cp, left := cp + 1, left - 1;
    }
    NoneLeft(s, str, offset, cp);
    return -1;
  }

  lemma {:induction false} Occurrence(s: Text, t: Text, i: nat)
    requires i + |t| <= |s|
    ensures OccursAt(s, t, i) <==> s[i..i + |t|] == t
  {
  }

  /** Where the first character does not occur, the string does not either. */
  lemma {:induction false} NoneBefore(s: Text, t: Text, from: nat, to: nat)
    requires t != [] && to <= |s| && forall i :: from <= i < to ==> s[i] != t[0]
    ensures forall i :: from <= i < to ==> !OccursAt(s, t, i)
  {
    forall i | from <= i < to ensures !OccursAt(s, t, i) {
      if OccursAt(s, t, i) { FirstCharacter(s, t, i); }
    }
  }

  lemma {:induction false} FirstCharacter(s: Text, t: Text, i: nat)
    requires t != [] && OccursAt(s, t, i)
    ensures s[i] == t[0]
  {
    assert s[i..i + |t|][0] == s[i];
  }

  lemma {:induction false} NoneLeft(s: Text, t: Text, from: nat, cp: nat)
    requires from <= cp && |s| - cp < |t| && forall i :: from <= i < cp ==> !OccursAt(s, t, i)
    ensures Find(s, t, from) == -1
  {
  }

  // ----- replacing in a range of lines

  /** The arguments of a substitute command. */
  datatype Sub = Sub(oldStr: Text, newStr: Text, all: bool, show: bool, num1: int, num2: int)

  predicate InRange(c: Sub, last: int) {
    1 <= c.num1 <= c.num2 <= last
  }

  /** What becomes of a text, without regard to others. */
  function Result(c: Sub, s: Text): Text
    requires c.oldStr != []
  {
    Replaced(s, c.oldStr, c.newStr, c.all)
  }

  /** What becomes of a line that is searched from offset on. */
  function Outcome(c: Sub, s: Text, offset: nat): Text
    requires c.oldStr != []
  {
    if offset > |s| then s else s[..offset] + Result(c, s[offset..])
  }

  /** Where line n is searched from: an offset reached in the line before is set back only if nothing was found there
      from some point on, so without the g option it is carried over. */
  function Carried(c: Sub, ls: seq<Text>, n: int): nat
    decreases n
  {
    if c.all || n <= c.num1 || n < 2 || n - 2 >= |ls| then 0
    else
      var r := Find(ls[n - 2], c.oldStr, Carried(c, ls, n - 1));
      if r == -1 then 0 else r + |c.newStr|
  }

  /** Something is replaced in line n. */
  predicate Hits(c: Sub, ls: seq<Text>, n: int) {
    1 <= n <= |ls| && Find(ls[n - 1], c.oldStr, Carried(c, ls, n)) != -1
  }

  /** What becomes of the lines. */
  function Substituted(c: Sub, ls: seq<Text>): seq<Text>
    requires c.oldStr != []
  {
    seq(|ls|, i requires 0 <= i < |ls| =>
      if c.num1 - 1 <= i < c.num2 then Outcome(c, ls[i], Carried(c, ls, i + 1)) else ls[i])
  }

  /** The last line up to n in which something is replaced, or 0. */
  function LastHit(c: Sub, ls: seq<Text>, n: int): int
    decreases n
  {
    if n < c.num1 || n < 1 then 0 else if Hits(c, ls, n) then n else LastHit(c, ls, n - 1)
  }

  /** With the g option every line of the range is what it should be. */
  lemma {:induction false} AllReplaced(c: Sub, ls: seq<Text>, i: nat)
    requires c.oldStr != [] && c.all && c.num1 - 1 <= i < c.num2 && i < |ls|
    ensures Substituted(c, ls)[i] == Replaced(ls[i], c.oldStr, c.newStr, true)
  {
    hide Replaced;
    assert ls[i][0..] == ls[i];
  }

  /** Without it a line gets its first occurrence replaced exactly if that does not lie before the offset carried over
      from the line before. */
  lemma {:induction false} FirstReplaced(c: Sub, ls: seq<Text>, i: nat)
    requires c.oldStr != [] && !c.all && c.num1 - 1 <= i < c.num2 && i < |ls|
    ensures var first, from := Find(ls[i], c.oldStr, 0), Carried(c, ls, i + 1);
            && (Find(ls[i], c.oldStr, from) == first <==> first == -1 || from <= first)
            && (first == -1 || from <= first ==> Substituted(c, ls)[i] == Replaced(ls[i], c.oldStr, c.newStr, false))
  {
    hide Carried, OccursAt, Find, Outcome;
    var from := Carried(c, ls, i + 1);
    FindLater(ls[i], c.oldStr, from);
    OutcomeFirst(c, ls[i], from);
  }

  lemma {:induction false} OutcomeFirst(c: Sub, s: Text, from: nat)
    requires c.oldStr != [] && !c.all
    ensures var first := Find(s, c.oldStr, 0); first == -1 || from <= first ==> Outcome(c, s, from) == Result(c, s)
  {
    hide *;
    FindLater(s, c.oldStr, from);
    OutcomeIs(c, s, 0);
    if Find(s, c.oldStr, 0) == -1 {
      NotFound(c, s, from);
      NotFound(c, s, 0);
    } else if from <= Find(s, c.oldStr, 0) {
      FoundOne(c, s, from);
      FoundOne(c, s, 0);
    }
  }

  lemma {:induction false} FindLater(s: Text, t: Text, from: nat)
    ensures var first, later := Find(s, t, 0), Find(s, t, from);
            && (first == -1 ==> later == -1) && (from <= first ==> later == first)
            && (first != -1 && first < from ==> later != first)
  {
    var first := Find(s, t, 0);
    if from <= first { FindIs(s, t, from, first); }
  }

  /** So a line may be passed over. */
  lemma {:induction false} LineMissed()
    ensures var c := Sub("a", "b", false, false, 1, 2);
            Substituted(c, ["xxa", "a"]) == ["xxb", "a"]
  {
    hide OccursAt, Find, Replaced;
    var c, ls := Sub("a", "b", false, false, 1, 2), ["xxa", "a"];
    FoundLast();
    assert Carried(c, ls, 1) == 0 && Carried(c, ls, 2) == 3;
    assert "xxa"[0..] == "xxa" && "xxa"[..0] == "";
    ResultAt(c, "xxa", 2);
    assert "xxa"[..2] + "b" + "xxa"[3..] == "xxb";
    assert Outcome(c, "xxa", 0) == "xxb" && Outcome(c, "a", 3) == "a";
  }

  lemma {:induction false} FoundLast()
    ensures Find("xxa", "a", 0) == 2
  {
    NoneBefore("xxa", "a", 0, 2);
    assert OccursAt("xxa", "a", 2);
    FindIs("xxa", "a", 0, 2);
  }

  /** Line n of the range is at hand, in which something has been replaced or not; the lines were ls. */
  ghost predicate Halfway(c: Sub, ls: seq<Text>, t: seq<Text>, n: int, offset: nat, replaced: bool)
    requires c.oldStr != [] && InRange(c, |ls|)
  {
    && |t| == |ls| && c.num1 <= n <= c.num2 + 1 && (replaced ==> c.all)
    && (forall i :: 0 <= i < |ls| && (i < c.num1 - 1 || i >= n || i >= c.num2) ==> t[i] == ls[i])
    && (forall i :: c.num1 - 1 <= i < n - 1 ==> t[i] == Outcome(c, ls[i], Carried(c, ls, i + 1)))
    && (n <= c.num2 ==>
          && Outcome(c, t[n - 1], offset) == Outcome(c, ls[n - 1], Carried(c, ls, n))
          && if replaced then Hits(c, ls, n) else offset == Carried(c, ls, n) && t[n - 1] == ls[n - 1])
  }

  lemma {:induction false} OutcomeIs(c: Sub, s: Text, offset: nat)
    requires c.oldStr != [] && offset <= |s|
    ensures Outcome(c, s, offset) == s[..offset] + Result(c, s[offset..])
    ensures offset == 0 ==> Outcome(c, s, offset) == Result(c, s)
  {
    hide Result;
    if offset == 0 { assert s[0..] == s; }
  }

  /** Nothing more is found: the line is what it should be. */
  lemma {:induction false} NotFound(c: Sub, s: Text, offset: nat)
    requires c.oldStr != [] && Find(s, c.oldStr, offset) == -1
    ensures s == Outcome(c, s, offset)
  {
    if offset <= |s| {
      FindFrom(s, c.oldStr, offset);
      assert s[..offset] + s[offset..] == s;
    }
  }

  /** Another occurrence is replaced. */
  lemma {:induction false} FoundOne(c: Sub, s: Text, offset: nat)
    requires c.oldStr != [] && Find(s, c.oldStr, offset) != -1
    ensures var i := Find(s, c.oldStr, offset);
            && offset <= i <= i + |c.oldStr| <= |s|
            && var t := s[..i] + c.newStr + s[i + |c.oldStr|..];
            && Outcome(c, s, offset) == (if c.all then Outcome(c, t, i + |c.newStr|) else t)
            && |t| - (i + |c.newStr|) < |s| - offset
  {
    hide *;
    var i, n := Find(s, c.oldStr, offset), |c.oldStr|;
    FindFits(s, c.oldStr, offset);
    FindFrom(s, c.oldStr, offset);
    var after := s[i + n..];
    ResultAt(c, s[offset..], i - offset);
    OutcomeIs(c, s, offset);
    OutcomeIs(c, s[..i] + c.newStr + after, i + |c.newStr|);
    Slices(s, offset, i, n, c.newStr, if c.all then Result(c, after) else after);
  }

  lemma {:induction false} ResultAt(c: Sub, s: Text, i: nat)
    requires c.oldStr != [] && Find(s, c.oldStr, 0) == i && i + |c.oldStr| <= |s|
    ensures var after := s[i + |c.oldStr|..];
            Result(c, s) == s[..i] + c.newStr + if c.all then Result(c, after) else after
  {
    hide Find, OccursAt;
  }

  lemma {:induction false} FindFits(s: Text, t: Text, from: nat)
    requires Find(s, t, from) != -1
    ensures from <= Find(s, t, from) <= Find(s, t, from) + |t| <= |s|
  {
  }

  lemma {:induction false} Slices(s: Text, offset: nat, i: nat, n: nat, newStr: Text, tail: Text)
    requires offset <= i <= i + n <= |s|
    ensures s[offset..][i - offset + n..] == s[i + n..]
    ensures s[..offset] + (s[offset..][..i - offset] + newStr + tail) == s[..i] + newStr + tail
    ensures var t := s[..i] + newStr + s[i + n..];
            t[..i + |newStr|] == s[..i] + newStr && t[i + |newStr|..] == s[i + n..]
  {
  }

  lemma {:induction false} HalfwayStart(c: Sub, ls: seq<Text>)
    requires c.oldStr != [] && InRange(c, |ls|)
    ensures Halfway(c, ls, ls, c.num1, 0, false) && LastHit(c, ls, c.num1 - 1) == 0
  {
    hide Outcome, Hits;
  }

  /** The next line, once this one is what it should be. */
  lemma {:induction false} HalfwayNext(c: Sub, ls: seq<Text>, t: seq<Text>, t': seq<Text>, n: int, offset: nat,
      replaced: bool, offset': nat)
    requires c.oldStr != [] && InRange(c, |ls|) && Halfway(c, ls, t, n, offset, replaced) && n <= c.num2
    requires |t'| == |t| && t' == t[n - 1 := t'[n - 1]] && t'[n - 1] == Outcome(c, t[n - 1], offset)
    requires offset' == Carried(c, ls, n + 1)
    ensures Halfway(c, ls, t', n + 1, offset', false)
  {
    hide Outcome, Hits, Carried;
  }

  /** One more replacement in this line. */
  lemma {:induction false} HalfwayOn(c: Sub, ls: seq<Text>, t: seq<Text>, t': seq<Text>, n: int, offset: nat,
      replaced: bool, offset': nat)
    requires c.oldStr != [] && InRange(c, |ls|) && Halfway(c, ls, t, n, offset, replaced) && n <= c.num2 && c.all
    requires |t'| == |t| && t' == t[n - 1 := t'[n - 1]]
            && Outcome(c, t'[n - 1], offset') == Outcome(c, t[n - 1], offset)
    requires Hits(c, ls, n)
    ensures Halfway(c, ls, t', n, offset', true)
  {
    hide Outcome, Hits, Carried;
  }

  lemma {:induction false} HalfwayEnd(c: Sub, ls: seq<Text>, t: seq<Text>, n: int, offset: nat, replaced: bool)
    requires c.oldStr != [] && InRange(c, |ls|) && Halfway(c, ls, t, n, offset, replaced) && n > c.num2
    ensures n == c.num2 + 1 && t == Substituted(c, ls)
  {
    hide Outcome, Hits, Carried;
    assert forall i :: 0 <= i < |t| ==> t[i] == Substituted(c, ls)[i];
  }

  /** Whether something is found in the line at hand, and where the next one is searched from. */
  lemma {:induction false} HalfwayHere(c: Sub, ls: seq<Text>, t: seq<Text>, n: int, offset: nat, replaced: bool)
    requires c.oldStr != [] && InRange(c, |ls|) && Halfway(c, ls, t, n, offset, replaced) && n <= c.num2
    ensures |t| == |ls| && 1 <= c.num1 <= n <= c.num2 <= |ls|
    ensures var r := Find(t[n - 1], c.oldStr, offset);
            && (r != -1 ==> Hits(c, ls, n)) && (r == -1 ==> (Hits(c, ls, n) <==> replaced))
            && Carried(c, ls, n + 1) == if c.all || r == -1 then 0 else r + |c.newStr|
  {
    hide Outcome, OccursAt, Find;
  }

  lemma {:induction false} LastHitIs(c: Sub, ls: seq<Text>, n: int)
    requires 1 <= c.num1 <= n
    ensures LastHit(c, ls, n) == if Hits(c, ls, n) then n else LastHit(c, ls, n - 1)
    ensures LastHit(c, ls, n) <= n
  {
    hide Hits;
    if n > c.num1 { LastHitIs(c, ls, n - 1); }
  }

  lemma {:induction false} RangeIs(c: Sub, last: int)
    ensures InRange(c, last) <==> 1 <= c.num1 <= c.num2 <= last
  {
  }

  // ----- replacing from any place of the ring

  function TextAt(ls: seq<Text>, q: nat): Text
    requires q <= |ls|
  {
    if q == 0 then [] else ls[q - 1]
  }

  /** The texts of all nodes from place p on, once around; the header has none. */
  function Turned(ls: seq<Text>, p: nat): (ts: seq<Text>)
    ensures |ts| == |ls| + 1
  {
    seq(|ls| + 1, i requires 0 <= i < |ls| + 1 => TextAt(ls, Around(p + i, |ls| + 1)))
  }

  /** The command for as many lines, but from the first one on. */
  function FromFirst(c: Sub): Sub {
    c.(num1 := 1, num2 := c.num2 - c.num1 + 1)
  }

  /** The cursor after k of the texts: where something is replaced, the line of that number is printed. */
  function Shown(c: Sub, ts: seq<Text>, v: View, k: nat): (u: View)
    requires OnRing(v) && 1 <= c.num1 && c.num1 + k - 1 <= |v.lines|
    ensures OnRing(u) && u.lines == v.lines
  {
    if k == 0 then v
    else
      var u, num := Shown(c, ts, v, k - 1), c.num1 + k - 1;
      if c.show && Hits(FromFirst(c), ts, k) then View(v.lines, num, Found(u, num)) else u
  }

  /** If the first node is that of the line asked for, the lines of the range are the ones that change. */
  lemma {:induction false} SubstitutedInPlace(c: Sub, ls: seq<Text>, t: seq<Text>)
    requires c.oldStr != [] && InRange(c, |ls|) && |t| == |ls|
    requires Turned(t, c.num1) == Substituted(FromFirst(c), Turned(ls, c.num1))
    ensures t == Substituted(c, ls)
    ensures var hit := LastHit(FromFirst(c), Turned(ls, c.num1), c.num2 - c.num1 + 1);
            LastHit(c, ls, c.num2) == if hit > 0 then c.num1 - 1 + hit else 0
  {
    hide Turned, Carried, Replaced, Hits, LastHit;
    var ts, d := Turned(ls, c.num1), FromFirst(c);
    forall i | 0 <= i < |ls| ensures t[i] == Substituted(c, ls)[i] {
      var k := if i >= c.num1 - 1 then i - (c.num1 - 1) else i - (c.num1 - 1) + |ts|;
      TurnedAt(ls, c.num1, i + 1, k);
      TurnedAt(t, c.num1, i + 1, k);
      if c.num1 - 1 <= i < c.num2 { CarriedTurned(c, ls, k + 1); }
    }
    LastHitTurned(c, ls, c.num2 - c.num1 + 1);
  }

  lemma {:induction false} TurnedIs(ls: seq<Text>, p: nat, i: nat)
    requires i <= |ls|
    ensures Turned(ls, p)[i] == TextAt(ls, Around(p + i, |ls| + 1))
  {
    hide Around;
  }

  /** Line q is the k-th behind the one at place p, counted around the ring. */
  lemma {:induction false} TurnedAt(ls: seq<Text>, p: nat, q: nat, k: nat)
    requires 1 <= p <= |ls| && 1 <= q <= |ls| && k == if q >= p then q - p else q - p + |ls| + 1
    ensures Turned(ls, p)[k] == ls[q - 1]
  {
    StepsBack(p, k, |ls| + 1);
    TurnedIs(ls, p, k);
  }

  lemma {:induction false} CarriedTurned(c: Sub, ls: seq<Text>, k: nat)
    requires InRange(c, |ls|) && 1 <= k <= c.num2 - c.num1 + 1
    ensures Carried(FromFirst(c), Turned(ls, c.num1), k) == Carried(c, ls, c.num1 + k - 1)
  {
    hide Turned, Find;
    if k > 1 {
      CarriedTurned(c, ls, k - 1);
      TurnedAt(ls, c.num1, c.num1 + k - 2, k - 2);
    }
  }

  lemma {:induction false} LastHitTurned(c: Sub, ls: seq<Text>, k: nat)
    requires InRange(c, |ls|) && k <= c.num2 - c.num1 + 1
    ensures var hit := LastHit(FromFirst(c), Turned(ls, c.num1), k);
            LastHit(c, ls, c.num1 + k - 1) == if hit > 0 then c.num1 - 1 + hit else 0
  {
    hide Turned, Find, Carried;
    if k > 0 {
      LastHitTurned(c, ls, k - 1);
      CarriedTurned(c, ls, k);
      TurnedAt(ls, c.num1, c.num1 + k - 1, k - 1);
    }
  }

  lemma {:induction false} ShownInStep(c: Sub, ts: seq<Text>, v: View, k: nat)
    requires InStep(v) && 1 <= c.num1 && c.num1 + k - 1 <= |v.lines|
    ensures var u, hit := Shown(c, ts, v, k), LastHit(FromFirst(c), ts, k);
            InStep(u) && 0 <= hit <= k && u.num == if c.show && hit > 0 then c.num1 - 1 + hit else v.num
  {
    hide Found, Hits;
    if k > 0 {
      ShownInStep(c, ts, v, k - 1);
      FoundInStep(Shown(c, ts, v, k - 1), c.num1 + k - 1);
    }
  }

  /** What subCommand makes of lines and cursor, whatever the cursor: t are the lines and w is the cursor after it. */
  ghost predicate SubstitutionOf(c: Sub, v: View, t: seq<Text>, w: View)
    requires c.oldStr != [] && OnRing(v) && InRange(c, |v.lines|)
  {
    var p := Found(v, c.num1);
    var ts := Turned(v.lines, p);
    && |t| == |v.lines| && Turned(t, p) == Substituted(FromFirst(c), ts)
    && OnRing(Touched(v)) && w == Shown(c, ts, Touched(v), c.num2 - c.num1 + 1).(lines := t)
  }

  /** From a cursor in step the lines of the range are replaced, and the last one printed becomes the current line. */
  lemma {:induction false} SubstitutedInStep(c: Sub, v: View, t: seq<Text>, w: View)
    requires c.oldStr != [] && InStep(v) && InRange(c, |v.lines|) && SubstitutionOf(c, v, t, w)
    ensures t == Substituted(c, v.lines) && InStep(w)
    ensures var hit := LastHit(c, v.lines, c.num2); w.num == if c.show && hit > 0 then hit else Touched(v).num
  {
    hide Turned, Found, Shown, Substituted, LastHit;
    FoundInStep(v, c.num1);
    SubstitutedInPlace(c, v.lines, t);
    ShownInStep(c, Turned(v.lines, c.num1), Touched(v), c.num2 - c.num1 + 1);
  }

  /** The cursor of OtherLineGone: the first line is asked for, the second one is changed. */
  lemma {:induction false} OtherLineChanged(t: seq<Text>, w: View)
    requires var v := View(["x", "a", "b", "c", "d"], 1, 2);
             OnRing(v) && SubstitutionOf(Sub("a", "y", false, false, 1, 1), v, t, w)
    ensures t == ["x", "y", "b", "c", "d"]
  {
    hide Found, Turned;
    var v, c := View(["x", "a", "b", "c", "d"], 1, 2), Sub("a", "y", false, false, 1, 1);
    FoundBehind(v, 1, 1);
    var ts := Turned(v.lines, 2);
    TurnedTwice(v.lines);
    TurnedTwice(t);
    assert OccursAt("a", "a", 0);
    FindIs("a", "a", 0, 0);
    assert "a"[0..] == "a";
    ResultAt(c, "a", 0);
    assert Carried(FromFirst(c), ts, 1) == 0 && Outcome(FromFirst(c), "a", 0) == "y";
    assert Substituted(FromFirst(c), ts) == ["y", "b", "c", "d", [], "x"];
  }

  lemma {:induction false} TurnedTwice(t: seq<Text>)
    requires |t| == 5
    ensures Turned(t, 2) == [t[1], t[2], t[3], t[4], [], t[0]]
  {
    hide Turned;
    forall i | 0 <= i <= 5 ensures Turned(t, 2)[i] == [t[1], t[2], t[3], t[4], [], t[0]][i] {
      StepsBack(2, i, 6);
      TurnedIs(t, 2, i);
    }
  }

  // ----- the ring of nodes

  class Line {
    var next: Line?
    var prev: Line?
    var data: Text

    constructor (data: Text)
      ensures this.data == data
    {
      this.data := data;
    }
  }

  function Succ(ring: seq<Line>, i: nat): Line
    requires i < |ring|
  {
    if i + 1 < |ring| then ring[i + 1] else ring[0]
  }

  predicate Joined(a: Line, b: Line)
    reads a`next, b`prev
  {
    a.next == b && b.prev == a
  }

  ghost predicate Distinct(ring: seq<Line>) {
    forall i, j :: 0 <= i < j < |ring| ==> ring[i] != ring[j]
  }

  /** The nodes are different, and each is linked with its successor in both directions. */
  ghost predicate IsRing(ring: seq<Line>)
    reads ring`next, ring`prev
  {
    Distinct(ring) && forall i :: 0 <= i < |ring| ==> Joined(ring[i], Succ(ring, i))
  }

  lemma {:induction false} RingNext(ring: seq<Line>, i: nat)
    requires IsRing(ring) && i < |ring|
    ensures ring[i].next == if i + 1 < |ring| then ring[i + 1] else ring[0]
  {
    assert Joined(ring[i], Succ(ring, i));
  }

  lemma {:induction false} RingPrev(ring: seq<Line>, i: nat)
    requires IsRing(ring) && i < |ring|
    ensures ring[i].prev == if i > 0 then ring[i - 1] else ring[|ring| - 1]
  {
    var k := if i > 0 then i - 1 else |ring| - 1;
    assert Joined(ring[k], Succ(ring, k));
  }

  /** Links a node in before the p-th one, or before the header at the end. */
  method LinkBefore(newLp: Line, lp: Line, ghost ring: seq<Line>, ghost p: nat) returns (ghost ring': seq<Line>)
    requires IsRing(ring) && 1 <= p <= |ring| && lp == Succ(ring, p - 1) && newLp !in ring
    modifies ring`next, ring`prev, newLp`next, newLp`prev
    ensures ring' == ring[..p] + [newLp] + ring[p..] && IsRing(ring')
  {
    ring' := ring[..p] + [newLp] + ring[p..];
    assert Joined(ring[p - 1], lp);
    newLp.next := lp;
    newLp.prev := lp.prev;
    lp.prev.next := newLp;
    lp.prev := newLp;
    assert Joined(ring[p - 1], newLp) && Joined(newLp, lp);
    forall i | 0 <= i < |ring'| ensures Joined(ring'[i], Succ(ring', i)) {
      if i < p - 1 {
        assert old(Joined(ring[i], Succ(ring, i))) && Succ(ring, i) == ring[i + 1];
      } else if i > p {
        assert old(Joined(ring[i - 1], Succ(ring, i - 1))) && ring'[i] == ring[i - 1];
      }
    }
  }

  /** Takes the i-th node out. */
  method Unlink(lp: Line, ghost ring: seq<Line>, ghost i: nat) returns (ghost ring': seq<Line>)
    requires IsRing(ring) && 1 <= i < |ring| && lp == ring[i]
    modifies ring`next, ring`prev
    ensures ring' == ring[..i] + ring[i + 1..] && IsRing(ring')
  {
    ring' := ring[..i] + ring[i + 1..];
    assert Joined(ring[i - 1], lp) && Joined(lp, Succ(ring, i));
    var nlp, plp := lp.next, lp.prev;
    plp.next := nlp;
    nlp.prev := plp;
    forall k | 0 <= k < |ring'| ensures Joined(ring'[k], Succ(ring', k)) {
      if k < i - 1 {
        assert old(Joined(ring[k], Succ(ring, k))) && Succ(ring, k) == ring[k + 1];
      } else if k >= i {
        assert old(Joined(ring[k + 1], Succ(ring, k + 1)));
      }
    }
  }

  /** Takes count nodes out from the i-th on, unless the header is among them. lost tells whether cur was. */
  method UnlinkAll(first: Line, count: nat, header: Line, cur: Line?, ghost ring: seq<Line>, ghost i: nat)
    returns (ok: bool, lost: bool, ghost ring': seq<Line>)
    requires IsRing(ring) && i < |ring| && 1 <= count < |ring| && first == ring[i] && header == ring[0]
    modifies ring`next, ring`prev
    ensures ok <==> 1 <= i && i + count <= |ring|
    ensures ok ==> ring' == Without(ring, i, count) && IsRing(ring')
    ensures ok ==> (lost <==> Among(ring, i, count, cur))
  {
    hide *;
    AllDistinct(ring);
    NoneTaken(ring, i);
    AmongNext(ring, i, 0, cur);
    var lp, n := first, count;
    ok, lost, ring' := true, false, ring;
    while n > 0
      invariant 0 <= n <= count && IsRing(ring') && i + (count - n) <= |ring|
      invariant i == 0 ==> n == count && lp == header
      invariant i > 0 ==> ring' == Without(ring, i, count - n) && i - 1 < |ring'| && lp == Succ(ring', i - 1)
      invariant forall k :: 0 <= k < |ring'| ==> ring'[k] in ring
      invariant lost <==> Among(ring, i, count - n, cur)
    {
      HeaderMet(ring, ring', i, count - n);
      if lp == header { return false, lost, ring'; }
      RingNext(ring', i);
      AmongNext(ring, i, count - n, cur);
      OneLess(ring, i, count - n);
      var nlp := lp.next;
      if lp == cur { lost := true; }
      ring' := Unlink(lp, ring', i);
      lp := nlp;
      n := n - 1;
    }
  }

  /** cur is one of the count nodes from the i-th on. */
  ghost predicate Among(ring: seq<Line>, i: nat, count: nat, cur: Line?) {
    exists k :: i <= k < i + count && k < |ring| && ring[k] == cur
  }

  lemma {:induction false} AmongNext(ring: seq<Line>, i: nat, gone: nat, cur: Line?)
    ensures !Among(ring, i, 0, cur)
    ensures i + gone < |ring| ==>
              (Among(ring, i, gone + 1, cur) <==> Among(ring, i, gone, cur) || ring[i + gone] == cur)
  {
  }

  lemma {:induction false} OneLess(ring: seq<Line>, i: nat, gone: nat)
    requires i + gone < |ring|
    ensures var r, r' := Without(ring, i, gone), Without(ring, i, gone + 1);
            && i < |r| == |ring| - gone && |r'| == |r| - 1 && r' == r[..i] + r[i + 1..]
            && (i > 0 ==> i - 1 < |r'| && Succ(r', i - 1) == if i + 1 < |r| then r[i + 1] else r[0])
    ensures var r' := Without(ring, i, gone + 1); forall k :: 0 <= k < |r'| ==> r'[k] in ring
  {
  }

  lemma {:induction false} AllDistinct(ring: seq<Line>)
    requires IsRing(ring)
    ensures Distinct(ring)
  {
  }

  /** The ring without count nodes from the i-th on. */
  function Without(ring: seq<Line>, i: nat, count: nat): seq<Line>
    requires i + count <= |ring|
  {
    ring[..i] + ring[i + count..]
  }

  lemma {:induction false} NoneTaken(ring: seq<Line>, i: nat)
    requires i < |ring|
    ensures ring == Without(ring, i, 0) && (i > 0 ==> Succ(ring, i - 1) == ring[i])
  {
  }

  /** Once gone nodes have been taken out, the header is what follows exactly if there is no other node left. */
  lemma {:induction false} HeaderMet(ring: seq<Line>, ring': seq<Line>, i: nat, gone: nat)
    requires Distinct(ring) && i < |ring| && i + gone <= |ring|
    requires i > 0 ==> ring' == Without(ring, i, gone)
    ensures i > 0 && i + gone < |ring| ==>
              i < |ring'| && Succ(ring', i - 1) == ring'[i] == ring[i + gone] && ring[i + gone] != ring[0]
    ensures i > 0 && i + gone == |ring| ==> Succ(ring', i - 1) == ring[0]
  {
  }

  /** Puts a node in place of the i-th one. */
  method Relink(nlp: Line, lp: Line, ghost ring: seq<Line>, ghost i: nat) returns (ghost ring': seq<Line>)
    requires IsRing(ring) && 1 <= i < |ring| && lp == ring[i] && nlp !in ring
    modifies ring`next, ring`prev, nlp`next, nlp`prev
    ensures ring' == ring[i := nlp] && IsRing(ring')
  {
    ring' := ring[i := nlp];
    assert Joined(ring[i - 1], lp) && Joined(lp, Succ(ring, i));
    nlp.next := lp.next;
    nlp.prev := lp.prev;
    nlp.prev.next := nlp;
    nlp.next.prev := nlp;
    forall k | 0 <= k < |ring'| ensures Joined(ring'[k], Succ(ring', k)) {
      if k < i - 1 {
        assert old(Joined(ring[k], Succ(ring, k))) && Succ(ring, k) == ring[k + 1];
      } else if k > i {
        assert old(Joined(ring[k], Succ(ring, k)));
      }
    }
  }

  // ----- the editor

  lemma {:induction false} ModUp(x: int, n: nat)
    requires n > 0
    ensures Around(x + 1, n) == if Around(x, n) + 1 < n then Around(x, n) + 1 else 0
  {
    var q := if x % n + 1 < n then x / n else x / n + 1;
    var r := if x % n + 1 < n then x % n + 1 else 0;
    assert x == n * (x / n) + x % n;
    ModIs(x + 1, q, r, n);
  }

  lemma {:induction false} ModDown(x: int, n: nat)
    requires n > 0
    ensures Around(x - 1, n) == if Around(x, n) > 0 then Around(x, n) - 1 else n - 1
  {
    var q := if x % n > 0 then x / n else x / n - 1;
    var r := if x % n > 0 then x % n - 1 else n - 1;
    assert x == n * (x / n) + x % n;
    ModIs(x - 1, q, r, n);
  }

  lemma {:induction false} ModIs(x: int, q: int, r: nat, n: nat)
    requires r < n && x == n * q + r
    ensures x % n == r
  {
    var p := x / n;
    assert x == n * p + x % n;
    Multiples(n, q - p, x % n - r);
  }

  lemma {:induction false} Multiples(n: nat, k: int, d: int)
    requires n * k == d && 0 < d + n && d < n
    ensures d == 0
  {
    assert k >= 1 ==> n * k >= n;
    assert k <= -1 ==> n * k <= n * -1;
  }

  class Editor {
    const header: Line
    var curNum: int
    var lastNum: int
    var curLine: Line?
    var dirty: bool
    var searchString: Text
    /** The nodes, the header first, their texts, and the place of curLine. */
    ghost var ring: seq<Line>
    ghost var texts: seq<Text>
    ghost var at: nat

    constructor ()
      ensures Valid() && Now() == View([], 0, 0) && fresh(ring)
    {
      var h := new Line([]);
      header := h;
      curNum, lastNum, curLine, dirty, searchString := 0, 0, null, false, [];
      ring, texts, at := [h], [], 0;
      new;
      header.next := header;
      header.prev := header;
    }

    ghost predicate Valid()
      reads this`curNum, this`lastNum, this`curLine, this`ring, this`texts, this`at, ring
    {
      && ring != [] && ring[0] == header && IsRing(ring) && lastNum == |ring| - 1 == |texts|
      && header.data == [] && (forall i :: 0 <= i < |texts| ==> ring[i + 1].data == texts[i])
      && OnRing(Now()) && (curNum > 0 ==> curLine == ring[at])
    }

    ghost function Now(): View
      reads this`texts, this`curNum, this`at
    {
      View(texts, curNum, at)
    }

    /** findLine. */
    method FindLine(num: int) returns (lp: Line?)
      requires Valid()
      modifies this`curNum, this`curLine, this`at
      ensures Valid() && (lp == null <==> num < 1 || num > lastNum)
      ensures lp == null ==> Now() == old(Now())
      ensures lp != null ==> Now() == Touched(old(Now())) && lp == ring[Found(old(Now()), num)]
    {
      hide IsRing, Found, Around;
      if num < 1 || num > lastNum { return null; }
      RingNext(ring, 0);
      RingPrev(ring, 0);
      if curNum <= 0 {
        curNum := 1;
        curLine, at := header.next, 1;
      }
      TouchedFound(old(Now()), num);
      FoundFrom(Now(), num);
      if num == curNum { return curLine; }
      lp := curLine;
      var lnum := curNum;
      ghost var start := at;
      if num < curNum / 2 {
        lp, lnum, start := header.next, 1, 1;
      } else if num > (curNum + lastNum) / 2 {
        lp, lnum, start := header.prev, lastNum, |ring| - 1;
      }
      lp := Walk(lp, lnum, num, ring, start);
    }

    static lemma {:induction false} TouchedFound(v: View, num: int)
      requires OnRing(v) && 1 <= num <= |v.lines|
      ensures OnRing(Touched(v)) && Found(Touched(v), num) == Found(v, num)
    {
    }

    /** The three places where the walk may start. */
    static lemma {:induction false} FoundFrom(v: View, num: int)
      requires OnRing(v) && v.num > 0 && 1 <= num <= |v.lines|
      ensures var n := |v.lines| + 1;
              && (num == v.num ==> Found(v, num) == v.at)
              && Found(v, num) == if num < v.num / 2 then Around(1 + num - 1, n)
                                  else if num > (v.num + |v.lines|) / 2 then Around(|v.lines| + num - |v.lines|, n)
                                  else Around(v.at + num - v.num, n)
    {
      SmallMod(num, |v.lines| + 1);
      SmallMod(v.at, |v.lines| + 1);
    }

    /** From line lnum at place start to line num. */
    static method Walk(from: Line, lnum: int, num: int, ghost ring: seq<Line>, ghost start: nat) returns (lp: Line)
      requires IsRing(ring) && start < |ring| && from == ring[start]
      ensures |ring| > 0 && lp == ring[Around(start + num - lnum, |ring|)]
    {
      hide IsRing, Around;
      lp := from;
      var l := lnum;
      SmallMod(start, |ring|);
      while l < num
        invariant (lnum <= num ==> lnum <= l <= num) && (lnum > num ==> l == lnum)
        invariant lp == ring[Around(start + l - lnum, |ring|)]
      {
        RingNext(ring, Around(start + l - lnum, |ring|));
        ModUp(start + l - lnum, |ring|);
        lp := lp.next;
        l := l + 1;
      }
      while l > num
        invariant (lnum >= num ==> num <= l <= lnum) && (lnum < num ==> l == num)
        invariant lp == ring[Around(start + l - lnum, |ring|)]
      {
        RingPrev(ring, Around(start + l - lnum, |ring|));
        ModDown(start + l - lnum, |ring|);
        lp := lp.prev;
        l := l - 1;
      }
    }

    /** setCurNum. */
    method SetCurNum(num: int) returns (ok: bool)
      requires Valid()
      modifies this`curNum, this`curLine, this`at
      ensures Valid() && (ok <==> 1 <= num <= lastNum)
      ensures Now() == if ok then View(old(texts), num, Found(old(Now()), num)) else old(Now())
    {
      hide IsRing;
      ghost var v := Now();
      var lp := FindLine(num);
      if lp == null { return false; }
      curNum := num;
      curLine, at := lp, Found(v, num);
      return true;
    }

    /** insertLine. */
    method InsertLine(num: int, data: Text) returns (ok: bool)
      requires Valid()
      modifies this, ring
      ensures Valid() && fresh(set l | l in ring && l !in old(ring)) && (ok <==> 1 <= num <= old(lastNum) + 1)
      ensures Now() == if ok then Inserted(old(Now()), num, data) else old(Now())
      ensures ok ==> dirty
    {
      hide *;
      ValidFacts();
      if num < 1 || num > lastNum + 1 { return false; }
      ghost var v := Now();
      var newLp := new Line(data);
      var lp: Line := header;
      ghost var p := |ring|;
      HeaderLast(ring);
      if num <= lastNum {
        var found := FindLine(num);
        FoundPlace(ring, v, num);
        ValidFacts();
        lp := found;
        p := if Found(v, num) == 0 then |ring| else Found(v, num);
      }
      ghost var u := Now();
      Splice(newLp, lp, data, p);
      LinkedIs(v, u, num, data, p);
      ValidFacts();
      ok := SetCurNum(num);
    }

    lemma {:induction false} ValidFacts()
      requires Valid()
      ensures ring != [] && header == ring[0] && lastNum == |ring| - 1 == |texts| && OnRing(Now())
              && Now().lines == texts
    {
      hide IsRing;
    }

    static lemma {:induction false} HeaderLast(ring: seq<Line>)
      requires ring != []
      ensures Succ(ring, |ring| - 1) == ring[0]
    {
    }

    static lemma {:induction false} FoundPlace(ring: seq<Line>, v: View, num: int)
      requires OnRing(v) && 1 <= num <= |v.lines| == |ring| - 1
      ensures Found(v, num) < |ring| && OnRing(Touched(v)) && Touched(v).lines == v.lines
      ensures ring[Found(v, num)] == Succ(ring, if Found(v, num) == 0 then |ring| - 1 else Found(v, num) - 1)
    {
      hide Found;
    }

    static lemma {:induction false} LinkedIs(v: View, u: View, num: int, data: Text, p: nat)
      requires OnRing(v) && 1 <= num <= |v.lines| + 1
      requires num > |v.lines| ==> u == v && p == |v.lines| + 1
      requires num <= |v.lines| ==>
                 u == Touched(v) && p == if Found(v, num) == 0 then |v.lines| + 1 else Found(v, num)
      ensures 1 <= p <= |v.lines| + 1 && Linked(v, num, data) == Placed(u, data, p)
      ensures Inserted(v, num, data) == View(Placed(u, data, p).lines, num, Found(Placed(u, data, p), num))
    {
      hide Found;
    }

    /** A node is linked in as the p-th; the cursor stays on its node. */
    method Splice(newLp: Line, lp: Line, data: Text, ghost p: nat)
      requires Valid() && 1 <= p <= |ring| && lp == Succ(ring, p - 1) && newLp !in ring && newLp.data == data
      modifies this, ring, newLp
      ensures Valid() && Now() == Placed(old(Now()), data, p) && ring == old(ring)[..p] + [newLp] + old(ring)[p..]
      ensures lastNum == old(lastNum) + 1 && dirty
    {
      hide *;
      ValidParts();
      ghost var v := Now();
      Spliced(ring, texts, newLp, data, p);
      ring := LinkBefore(newLp, lp, ring, p);
      texts := texts[..p - 1] + [data] + texts[p - 1..];
      if at >= p { at := at + 1; }
      lastNum := lastNum + 1;
      dirty := true;
      PlacedNow(v, data, p);
      ValidNow();
    }

    lemma {:induction false} ValidParts()
      requires Valid()
      ensures ring != [] && header == ring[0] && IsRing(ring) && lastNum == |ring| - 1 == |texts|
      ensures header.data == []
      ensures forall i :: 0 <= i < |texts| ==> ring[i + 1].data == texts[i]
      ensures curNum <= lastNum && (curNum > 0 ==> at < |ring| && curLine == ring[at])
      ensures Now() == View(texts, curNum, at)
    {
      hide IsRing;
    }

    lemma {:induction false} ValidNow()
      requires ring != [] && header == ring[0] && IsRing(ring) && lastNum == |ring| - 1 == |texts| && header.data == []
      requires forall i :: 0 <= i < |texts| ==> ring[i + 1].data == texts[i]
      requires curNum <= lastNum && (curNum > 0 ==> at < |ring| && curLine == ring[at])
      ensures Valid()
    {
      hide IsRing;
    }

    lemma {:induction false} PlacedNow(v: View, data: Text, p: nat)
      requires 1 <= p <= |v.lines| + 1
      requires texts == v.lines[..p - 1] + [data] + v.lines[p - 1..] && curNum == v.num
      requires at == if v.at >= p then v.at + 1 else v.at
      ensures Now() == Placed(v, data, p)
    {
    }

    static lemma {:induction false} Spliced(ring: seq<Line>, texts: seq<Text>, newLp: Line, data: Text, p: nat)
      requires 1 <= p <= |ring| == |texts| + 1 && newLp.data == data
      requires forall i :: 0 <= i < |texts| ==> ring[i + 1].data == texts[i]
      ensures var r, t := ring[..p] + [newLp] + ring[p..], texts[..p - 1] + [data] + texts[p - 1..];
              |r| == |t| + 1 && r[0] == ring[0] && (forall i :: 0 <= i < |t| ==> r[i + 1].data == t[i])
              && forall i :: 0 <= i < |ring| ==> r[if i >= p then i + 1 else i] == ring[i]
    {
    }

    /** deleteLines, whatever the cursor. */
    method DeleteLines(num1: int, num2: int) returns (fault: Option<Fault>)
      requires Valid()
      modifies this, ring
      ensures DeletionOf(old(Now()), num1, num2) == if fault.None? then Deleted(Now()) else Undefined(fault.value)
      ensures fault.None? ==> Valid() && dirty == (old(dirty) || 1 <= num1 <= num2 <= old(lastNum))
    {
      hide *;
      ValidFacts();
      ghost var v := Now();
      DeletionIs(v, num1, num2);
      if num1 < 1 || num2 > lastNum || num1 > num2 { return None; }
      FoundPlace(ring, v, num1);
      var lp := FindLine(num1);
      NowIs();
      ValidFacts();
      MoveOff(num1, num2);
      NowIs();
      ValidFacts();
      fault := CutOut(lp, num1, num2, Found(v, num1));
    }

    static lemma {:induction false} DeletionIs(v: View, num1: int, num2: int)
      requires OnRing(v)
      ensures if num1 < 1 || num2 > |v.lines| || num1 > num2 then DeletionOf(v, num1, num2) == Deleted(v)
              else
                && OnRing(Touched(v)) && Touched(v).lines == v.lines && Touched(v).num > 0
                && var u := MovedOff(Touched(v), num1, num2);
                && OnRing(u) && u.lines == v.lines && (u.num < num1 || u.num > num2)
                && DeletionOf(v, num1, num2) == CutOutOf(u, Found(v, num1), num1, num2)
    {
      hide Found, MovedOff, CutOutOf;
    }

    /** As many nodes as the range has lines are taken out, the first of which is lp. */
    method CutOut(lp: Line, num1: nat, num2: nat, ghost p: nat) returns (fault: Option<Fault>)
      requires Valid() && 1 <= num1 <= num2 <= lastNum && (curNum < num1 || curNum > num2)
      requires p < |ring| && lp == ring[p]
      modifies this, ring
      ensures OnRing(old(Now())) && num2 <= |old(Now()).lines|
      ensures CutOutOf(old(Now()), p, num1, num2) == if fault.None? then Deleted(Now()) else Undefined(fault.value)
      ensures fault.None? ==> Valid() && dirty
    {
      hide *;
      ValidParts();
      ValidFacts();
      ghost var v, nodes := Now(), ring;
      var count := num2 - num1 + 1;
      var cur := if curNum > 0 then curLine else null;
      CutOutIs(v, nodes, cur, p, num1, num2);
      if curNum > num2 { curNum := curNum - count; }
      lastNum := lastNum - count;
      fault := TakeOut(lp, count, cur, p);
      dirty := true;
      if fault.Some? { return; }
      if curNum > 0 { NodeKept(nodes, p, count, at); }
      if at >= p + count { at := at - count; }
      ValidNow();
      NowIs();
    }

    /** The loop of deleteLines, and the texts that go with the nodes. */
    method TakeOut(lp: Line, count: nat, cur: Line?, ghost p: nat) returns (fault: Option<Fault>)
      requires IsRing(ring) && p < |ring| == |texts| + 1 && lp == ring[p] && header == ring[0] && 1 <= count < |ring|
      requires forall i :: 0 <= i < |texts| ==> ring[i + 1].data == texts[i]
      modifies this`ring, this`texts, ring`next, ring`prev
      ensures fault == if p < 1 || p + count > |old(ring)| then Some(HeaderFreed)
                       else if Among(old(ring), p, count, cur) then Some(CursorFreed)
                       else None
      ensures fault.None? ==>
                && IsRing(ring) && ring == Without(old(ring), p, count)
                && texts == old(texts)[..p - 1] + old(texts)[p - 1 + count..]
                && |ring| == |texts| + 1 == |old(ring)| - count && ring[0] == header
                && forall i :: 0 <= i < |texts| ==> ring[i + 1].data == texts[i]
    {
      hide *;
      ghost var nodes := ring;
      var ok, lost;
      ok, lost, ring := UnlinkAll(lp, count, header, cur, ring, p);
      if !ok { return Some(HeaderFreed); }
      if lost { return Some(CursorFreed); }
      RangeGone(nodes, texts, p, count);
      texts := texts[..p - 1] + texts[p - 1 + count..];
      return None;
    }

    static lemma {:induction false} CutOutIs(v: View, ring: seq<Line>, cur: Line?, p: nat, num1: nat, num2: nat)
      requires OnRing(v) && |ring| == |v.lines| + 1 && p < |ring| && IsRing(ring)
      requires 1 <= num1 <= num2 <= |v.lines| && (v.num < num1 || v.num > num2)
      requires if v.num > 0 then cur == ring[v.at] else cur == null
      ensures
        var count, r := num2 - num1 + 1, CutOutOf(v, p, num1, num2);
        var inside, lost := 1 <= p && p + count <= |ring|, Among(ring, p, count, cur);
        && 1 <= count < |ring| && (!inside ==> r == Undefined(HeaderFreed))
        && (inside && lost ==> r == Undefined(CursorFreed))
        && (inside && !lost ==>
              && (v.num > 0 ==> v.at < p || v.at >= p + count)
              && r == Deleted(View(v.lines[..p - 1] + v.lines[p - 1 + count..],
                                   if v.num > num2 then v.num - count else v.num,
                                   if v.at >= p + count then v.at - count else v.at)))
    {
    }

    /** Before lines are deleted, the cursor leaves them. */
    method MoveOff(num1: int, num2: int)
      requires Valid() && 1 <= num1 <= num2 <= lastNum && curNum > 0
      modifies this`curNum, this`curLine, this`at
      ensures Valid() && OnRing(old(Now())) && num2 <= |old(Now()).lines|
      ensures Now() == MovedOff(old(Now()), num1, num2)
    {
      hide *;
      ValidFacts();
      NowIs();
      MovedOffIs(Now(), num1, num2);
      if curNum >= num1 && curNum <= num2 {
        if num2 < lastNum {
          var _ := SetCurNum(num2 + 1);
        } else if num1 > 1 {
          var _ := SetCurNum(num1 - 1);
        } else {
          ValidParts();
          curNum := 0;
          ValidNow();
          NowIs();
        }
      }
    }

    static lemma {:induction false} MovedOffIs(w: View, num1: int, num2: int)
      requires OnRing(w) && 0 < w.num && 1 <= num1 <= num2 <= |w.lines|
      ensures MovedOff(w, num1, num2)
              == if w.num < num1 || w.num > num2 then w
                 else if num2 < |w.lines| then View(w.lines, num2 + 1, Found(w, num2 + 1))
                 else if num1 > 1 then View(w.lines, num1 - 1, Found(w, num1 - 1))
                 else View(w.lines, 0, w.at)
    {
    }

    lemma {:induction false} NowIs()
      ensures Now() == View(texts, curNum, at)
    {
    }

    static lemma {:induction false} RangeGone(ring: seq<Line>, texts: seq<Text>, p: nat, count: nat)
      requires |ring| == |texts| + 1 && 1 <= p <= p + count <= |ring|
      requires forall i :: 0 <= i < |texts| ==> ring[i + 1].data == texts[i]
      ensures var r, t := Without(ring, p, count), texts[..p - 1] + texts[p - 1 + count..];
              && |r| == |t| + 1 == |ring| - count && r[0] == ring[0]
              && forall i :: 0 <= i < |t| ==> r[i + 1].data == t[i]
    {
    }

    static lemma {:induction false} NodeKept(ring: seq<Line>, p: nat, count: nat, at: nat)
      requires p + count <= |ring| && at < |ring| && (at < p || p + count <= at)
      ensures var r, i := Without(ring, p, count), if at >= p + count then at - count else at;
              i < |r| && r[i] == ring[at]
    {
    }

    /** printLines for one line: what is written is not modelled, but the line becomes the current one. */
    method PrintLine(num: int)
      requires Valid() && 1 <= num <= lastNum
      modifies this`curNum, this`curLine, this`at
      ensures Valid() && OnRing(old(Now())) && num <= |texts| == |old(Now()).lines|
      ensures Now() == View(texts, num, Found(old(Now()), num))
    {
      hide *;
      ValidFacts();
      TouchedFound(Now(), num);
      var _ := FindLine(num);
      ValidFacts();
      var _ := SetCurNum(num);
    }

    /** The string found at i in line q is replaced; a longer text needs a new node. */
    method ReplaceAt(line: Line, i: nat, oldLen: nat, newStr: Text, ghost q: nat) returns (lp: Line)
      requires Valid() && 1 <= q <= lastNum && q < |ring| && line == ring[q]
      requires q <= |texts| && i + oldLen <= |texts[q - 1]|
      modifies this, ring
      ensures Valid() && q < |ring| && lp == ring[q]
      ensures fresh(set l | l in ring && l !in old(ring)) && q <= |old(texts)|
      ensures var s := old(texts)[q - 1]; texts == old(texts)[q - 1 := s[..i] + newStr + s[i + oldLen..]]
      ensures Now() == old(Now()).(lines := texts) && lastNum == old(lastNum)
      ensures searchString == old(searchString) && dirty
    {
      hide *;
      ValidParts();
      NowIs();
      lp := line;
      dirty := true;
      ghost var s := texts[q - 1];
      if |newStr| <= oldLen {
        Shorter(lp, i, oldLen, newStr, q);
      } else {
        lp := Longer(lp, lp.data[..i] + newStr + lp.data[i + oldLen..], q);
      }
      NowIs();
    }

    lemma {:induction false} NodesDiffer(q: nat)
      requires IsRing(ring) && q < |ring|
      ensures forall k :: 0 <= k < |ring| && k != q ==> ring[k] != ring[q]
    {
    }

    /** In place: the text moves up behind what is put in. */
    method Shorter(lp: Line, i: nat, oldLen: nat, newStr: Text, ghost q: nat)
      requires Valid() && 1 <= q <= lastNum && q < |ring| && lp == ring[q]
      requires q <= |texts| && i + oldLen <= |texts[q - 1]| && |newStr| <= oldLen
      modifies this`texts, lp`data
      ensures Valid() && q <= |old(texts)|
      ensures var s := old(texts)[q - 1]; texts == old(texts)[q - 1 := s[..i] + newStr + s[i + oldLen..]]
    {
      hide *;
      ValidParts();
      NodesDiffer(q);
      ghost var s := lp.data;
      lp.data := lp.data[..i] + newStr + lp.data[i + |newStr|..];
      MovedUp(s, i, oldLen, newStr);
      if |newStr| < oldLen { lp.data := lp.data[..i + |newStr|] + lp.data[i + oldLen..]; }
      texts := texts[q - 1 := s[..i] + newStr + s[i + oldLen..]];
      ValidNow();
    }

    static lemma {:induction false} MovedUp(s: Text, i: nat, n: nat, newStr: Text)
      requires i + n <= |s| && |newStr| <= n
      ensures var t := s[..i] + newStr + s[i + |newStr|..];
              t[..i + |newStr|] + t[i + n..] == s[..i] + newStr + s[i + n..]
    {
    }

    /** A new node takes the place of the old one, in the ring and for the cursor. */
    method Longer(lp: Line, data: Text, ghost q: nat) returns (nlp: Line)
      requires Valid() && 1 <= q <= lastNum && q < |ring| && lp == ring[q] && q <= |texts|
      modifies this`ring, this`texts, this`curLine, ring
      ensures Valid() && q < |ring| && nlp == ring[q]
      ensures fresh(set l | l in ring && l !in old(ring)) && q <= |old(texts)|
      ensures texts == old(texts)[q - 1 := data]
    {
      hide *;
      ValidParts();
      NodesDiffer(q);
      nlp := new Line(data);
      ring := Relink(nlp, lp, ring, q);
      if curLine == lp { curLine := nlp; }
      texts := texts[q - 1 := data];
      ValidNow();
    }

    /** subCommand, once its arguments have been read, whatever the cursor. */
    method Substitute(oldStr: Text, newStr: Text, all: bool, show: bool, num1: int, num2: int)
      requires Valid()
      modifies this, ring
      ensures Valid()
      ensures var str := if oldStr == [] then old(searchString) else oldStr;
              var c, v := Sub(str, newStr, all, show, num1, num2), old(Now());
              if str == [] || !InRange(c, |v.lines|)
              then Now() == v && dirty == old(dirty) && searchString == old(searchString)
              else
                && searchString == str && SubstitutionOf(c, v, texts, Now())
                && dirty == (old(dirty) || LastHit(FromFirst(c), Turned(v.lines, Found(v, num1)), num2 - num1 + 1) > 0)
    {
      hide *;
      ValidFacts();
      RangeIs(Sub(if oldStr == [] then searchString else oldStr, newStr, all, show, num1, num2), lastNum);
      if num1 < 1 || num2 > lastNum || num1 > num2 { return; }
      var str := oldStr;
      if str == [] {
        if searchString == [] { return; }
        str := searchString;
      }
      searchString := str;
      ghost var v := Now();
      FoundPlace(ring, v, num1);
      var line := FindLine(num1);
      SubstituteFrom(line, Sub(str, newStr, all, show, num1, num2), Found(v, num1));
      ghost var c := Sub(str, newStr, all, show, num1, num2);
      SubstitutionIs(c, v, texts, Now());
    }

    static lemma {:induction false} SubstitutionIs(c: Sub, v: View, t: seq<Text>, w: View)
      requires c.oldStr != [] && OnRing(v) && InRange(c, |v.lines|) && OnRing(Touched(v)) && 1 <= c.num1 <= |v.lines|
      requires Touched(v).lines == v.lines && c.num2 <= |Touched(v).lines|
      requires var p := Found(v, c.num1);
               var ts := Turned(v.lines, p);
               |t| == |v.lines| && Turned(t, p) == Substituted(FromFirst(c), ts)
               && w == Shown(c, ts, Touched(v), c.num2 - c.num1 + 1).(lines := t)
      ensures SubstitutionOf(c, v, t, w)
    {
    }

    /** The loop of subCommand, from the node at place p on. */
    method SubstituteFrom(line: Line, c: Sub, ghost p: nat)
      requires Valid() && c.oldStr != [] && InRange(c, |texts|) && p < |ring| && line == ring[p]
      modifies this, ring
      ensures Valid() && searchString == old(searchString) && OnRing(old(Now())) && c.num2 <= |old(Now()).lines|
      ensures var ts, count := Turned(old(texts), p), c.num2 - c.num1 + 1;
              && 1 <= c.num1 <= c.num2 && FromFirst(c).oldStr != []
              && |texts| == |old(texts)| && Turned(texts, p) == Substituted(FromFirst(c), ts)
              && dirty == (old(dirty) || LastHit(FromFirst(c), ts, count) > 0)
              && Now() == Shown(c, ts, old(Now()), count).(lines := texts)
    {
      hide *;
      ValidFacts();
      RangeIs(c, lastNum);
      ghost var ls, v, d := texts, Now(), FromFirst(c);
      ghost var ts := Turned(ls, p);
      var lp, n, needPrint := line, c.num1, false;
      var offset: nat := 0;
      ghost var k, replaced, hit, now := 1, false, 0, ts;
      StartHere(c, ts, v, p);
      while n <= c.num2
        invariant n == c.num1 + k - 1 && 1 <= c.num1 <= n <= c.num2 + 1 <= |ls| + 1
        invariant |texts| == |ls| == lastNum == |ring| - 1
        invariant Valid() && fresh(set l | l in ring && l !in old(ring))
        invariant now == Turned(texts, p) && Halfway(d, ts, now, k, offset, replaced) && hit == LastHit(d, ts, k - 1)
        invariant n <= c.num2 ==> Around(p + k - 1, |ring|) < |ring| && lp == ring[Around(p + k - 1, |ring|)]
        invariant needPrint == (c.show && replaced) && searchString == old(searchString)
        invariant dirty == (old(dirty) || hit > 0 || replaced) && (n > c.num2 ==> !replaced)
        invariant Now() == Shown(c, ts, v, k - 1).(lines := texts)
        decreases c.num2 - n, if n <= c.num2 then |now[k - 1]| - offset else 0
      {
        ghost var was := now;
        HalfwayHere(d, ts, now, k, offset, replaced);
        ghost var s, from, hits := now[k - 1], offset, Hits(d, ts, k);
        DataAt(p, k);
        var found := FindString(lp.data, c.oldStr, offset);
        if found >= 0 {
          FoundOne(d, s, offset);
          HitIsLine(texts, p, k, c.oldStr, offset);
          lp := ReplaceTurned(lp, found, c, p, k);
          now := Turned(texts, p);
          needPrint := c.show;
          offset := found + |c.newStr|;
          if c.all {
            HalfwayOn(d, ts, was, now, k, from, replaced, offset);
            replaced := true;
            continue;
          }
        } else {
          NotFound(d, s, offset);
          offset := 0;
        }
        assert dirty == (old(dirty) || hit > 0 || hits);
        HalfwayNext(d, ts, was, now, k, from, replaced, offset);
        LastHitIs(d, ts, k);
        lp := Advance(lp, needPrint, n, c, ts, v, p, k);
        needPrint := false;
        n := n + 1;
        k := k + 1;
        replaced, hit := false, if hits then k - 1 else hit;
      }
      HalfwayEnd(d, ts, now, k, offset, replaced);
    }

    /** The line is printed if need be, and the next one is at hand. */
    method Advance(lp: Line, needPrint: bool, n: int, ghost c: Sub, ghost ts: seq<Text>, ghost v: View, ghost p: nat,
        ghost k: nat) returns (nlp: Line)
      requires Valid() && p < |ring| && 1 <= k && 1 <= n == c.num1 + k - 1 <= lastNum == |v.lines| && 1 <= c.num1
      requires Around(p + k - 1, |ring|) < |ring| && lp == ring[Around(p + k - 1, |ring|)]
      requires OnRing(v) && Now() == Shown(c, ts, v, k - 1).(lines := texts)
      requires needPrint == (c.show && Hits(FromFirst(c), ts, k))
      modifies this`curNum, this`curLine, this`at
      ensures Valid() && Now() == Shown(c, ts, v, k).(lines := texts)
      ensures Around(p + k, |ring|) < |ring| && nlp == ring[Around(p + k, |ring|)]
    {
      hide *;
      ValidFacts();
      ShownNext(c, ts, v, Now(), k, n);
      if needPrint { PrintLine(n); }
      NextLine(p, k);
      nlp := lp.next;
    }

    /** One replacement in the k-th node from place p on. */
    method ReplaceTurned(line: Line, i: nat, c: Sub, ghost p: nat, ghost k: nat) returns (lp: Line)
      requires Valid() && p < |ring| && 1 <= k <= |ring| == |texts| + 1
      requires 1 <= Around(p + k - 1, |ring|) && line == ring[Around(p + k - 1, |ring|)]
      requires i + |c.oldStr| <= |Turned(texts, p)[k - 1]|
      modifies this, ring
      ensures Valid() && |ring| == |old(ring)| && |texts| == |old(texts)| && lastNum == old(lastNum)
      ensures fresh(set l | l in ring && l !in old(ring)) && lp == ring[Around(p + k - 1, |ring|)]
      ensures var ts := Turned(old(texts), p);
              |ts| == |ring| && i + |c.oldStr| <= |ts[k - 1]|
              && Turned(texts, p) == ts[k - 1 := ts[k - 1][..i] + c.newStr + ts[k - 1][i + |c.oldStr|..]]
      ensures Now() == old(Now()).(lines := texts) && searchString == old(searchString) && dirty
    {
      hide *;
      ValidFacts();
      ghost var t := texts;
      DataAt(p, k);
      LineAt(t, p, k);
      lp := ReplaceAt(line, i, |c.oldStr|, c.newStr, Around(p + k - 1, |ring|));
      TurnedSet(t, texts, p, k);
      ValidFacts();
    }

    static lemma {:induction false} LineAt(t: seq<Text>, p: nat, k: nat)
      requires 1 <= k <= |t| + 1 && 1 <= Around(p + k - 1, |t| + 1)
      ensures var q := Around(p + k - 1, |t| + 1); q <= |t| && t[q - 1] == Turned(t, p)[k - 1]
    {
      hide Around, Turned;
      TurnedIs(t, p, k - 1);
    }

    static lemma {:induction false} StartHere(c: Sub, ts: seq<Text>, v: View, p: nat)
      requires c.oldStr != [] && InRange(c, |ts| - 1) && OnRing(v) && |v.lines| == |ts| - 1 && p < |ts|
      ensures c.num2 - c.num1 + 1 < |ts| && Around(p, |ts|) == p && Shown(c, ts, v, 0) == v
      ensures var d := FromFirst(c);
              && d == Sub(c.oldStr, c.newStr, c.all, c.show, 1, c.num2 - c.num1 + 1) && InRange(d, |ts|)
              && Halfway(d, ts, ts, 1, 0, false) && LastHit(d, ts, 0) == 0
    {
      hide Halfway, LastHit, Around;
      HalfwayStart(FromFirst(c), ts);
      SmallMod(p, |ts|);
    }

    lemma {:induction false} DataAt(p: nat, k: nat)
      requires Valid() && p < |ring| && 1 <= k <= |ring|
      ensures var q := Around(p + k - 1, |ring|);
              q < |ring| == |texts| + 1 && ring[q].data == TextAt(texts, q) == Turned(texts, p)[k - 1]
    {
      hide IsRing, Around;
    }

    static lemma {:induction false} ShownNext(c: Sub, ts: seq<Text>, v: View, u: View, k: nat, num: int)
      requires OnRing(v) && 1 <= c.num1 && 1 <= k && num == c.num1 + k - 1 <= |v.lines| == |u.lines|
      requires u == Shown(c, ts, v, k - 1).(lines := u.lines)
      ensures OnRing(u)
      ensures Shown(c, ts, v, k) == if c.show && Hits(FromFirst(c), ts, k) then View(v.lines, num, Found(u, num))
                                    else Shown(c, ts, v, k - 1)
    {
      hide Around, Hits;
    }

    /** Nothing is found in the header. */
    static lemma {:induction false} HitIsLine(t: seq<Text>, p: nat, k: nat, str: Text, from: nat)
      requires 1 <= k <= |t| + 1 && str != [] && Find(Turned(t, p)[k - 1], str, from) != -1
      ensures var q := Around(p + k - 1, |t| + 1); 1 <= q <= |t| && t[q - 1] == Turned(t, p)[k - 1]
    {
      hide Around, Turned;
      TurnedIs(t, p, k - 1);
    }

    static lemma {:induction false} TurnedSet(t: seq<Text>, t': seq<Text>, p: nat, k: nat)
      requires p <= |t| == |t'| && 1 <= k <= |t| + 1 && 1 <= Around(p + k - 1, |t| + 1)
      requires var q := Around(p + k - 1, |t| + 1); t' == t[q - 1 := t'[q - 1]]
      ensures var q := Around(p + k - 1, |t| + 1); Turned(t', p) == Turned(t, p)[k - 1 := t'[q - 1]]
    {
      hide Around, Turned;
      StepsBack(p, k - 1, |t| + 1);
      forall i | 0 <= i <= |t|
        ensures Turned(t', p)[i] == if i == k - 1 then t'[Around(p + k - 1, |t| + 1) - 1] else Turned(t, p)[i]
      {
        StepsBack(p, i, |t| + 1);
        TurnedIs(t, p, i);
        TurnedIs(t', p, i);
      }
    }

    lemma {:induction false} NextLine(p: nat, k: nat)
      requires Valid() && p < |ring| && 1 <= k
      ensures Around(p + k - 1, |ring|) < |ring| && ring[Around(p + k - 1, |ring|)].next != null
      ensures Around(p + k, |ring|) < |ring|
              && ring[Around(p + k - 1, |ring|)].next == ring[Around(p + k, |ring|)]
    {
      hide IsRing, Around;
      RingNext(ring, Around(p + k - 1, |ring|));
      ModUp(p + k - 1, |ring|);
    }
  }
}
