/** What follows a book. */
module BookTails {
  // A text that reads as a book ends there: with anything behind it, it is refused.

  import opened Syntax
  import opened Texts
  import opened BookCodec

  /** Reading with a tail behind the text reads the same and leaves the tail, unless the
      tail would continue the last character. */
  ghost predicate Extends<T>(r: Result<(T, string), CodecError>, longer: Result<(T, string), CodecError>, tail: string) {
    r.Ok? ==> longer == Ok((r.value.0, r.value.1 + tail)) || (longer.Err? && !Starts(tail))
  }

  lemma {:induction false} ColonStays(s: string, tail: string)
    requires ColonAt(s) < |s|
    ensures ColonAt(s + tail) == ColonAt(s)
  {
    if s[0] != ':' {
      assert (s + tail)[1..] == s[1..] + tail;
      ColonStays(s[1..], tail);
    }
  }

  lemma PartStays(s: string, tail: string, n: nat)
    requires n <= |s|
    ensures (s + tail)[..n] == s[..n] && (s + tail)[n..] == s[n..] + tail
  {
  }

  lemma BoundaryStays(s: string, tail: string, n: nat)
    requires n <= |s| && Boundary(s, n)
    ensures Boundary(s + tail, n) || !Starts(tail)
  {
    hide Continuation;
    if n < |s| {
      assert (s + tail)[n] == s[n];
    } else if tail != "" {
      assert (s + tail)[n] == tail[0];
    }
  }

  lemma FieldExtends(s: string, tail: string)
    ensures Extends(TakeField(s), TakeField(s + tail), tail)
  {
    hide ParseNat, ColonAt, Boundary, Starts;
    var colon := ColonAt(s);
    if TakeField(s).Ok? {
      ColonStays(s, tail);
      PartStays(s, tail, colon);
      PartStays(s, tail, colon + 1);
      var rest, len := s[colon + 1..], ParseNat(s[..colon]).value;
      PartStays(rest, tail, len);
      BoundaryStays(rest, tail, len);
    }
  }

  lemma NumberExtends(s: string, what: string, tail: string)
    ensures Extends(TakeNumber(s, what), TakeNumber(s + tail, what), tail)
  {
    FieldExtends(s, tail);
    hide TakeField, ParseNat, Continuation;
  }

  lemma {:induction false} RefsExtend(n: nat, s: string, tail: string)
    ensures Extends(TakeRefs(n, s), TakeRefs(n, s + tail), tail)
  {
    hide TakeField, Starts;
    if n > 0 {
      FieldExtends(s, tail);
      if TakeField(s).Ok? {
        var s1 := TakeField(s).value.1;
        FieldExtends(s1, tail);
        if TakeField(s1).Ok? {
          RefsExtend(n - 1, TakeField(s1).value.1, tail);
        }
      }
    }
  }

  lemma ObjectionExtends(s: string, tail: string)
    ensures Extends(TakeObjection(s), TakeObjection(s + tail), tail)
  {
    hide TakeField, TakeNumber, TakeRefs, Starts;
    FieldExtends(s, tail);
    if TakeField(s).Ok? {
      var s1 := TakeField(s).value.1;
      FieldExtends(s1, tail);
      if TakeField(s1).Ok? {
        var s2 := TakeField(s1).value.1;
        NumberExtends(s2, "objection reference count", tail);
        if TakeNumber(s2, "objection reference count").Ok? {
          RefsExtend(TakeNumber(s2, "objection reference count").value.0, TakeNumber(s2, "objection reference count").value.1, tail);
        }
      }
    }
  }

  lemma {:induction false} ObjectionsExtend(n: nat, s: string, read: map<string, Objection>, tail: string)
    ensures Extends(TakeObjections(n, s, read), TakeObjections(n, s + tail, read), tail)
    decreases n
  {
    hide TakeObjection, Starts;
    if n > 0 {
      ObjectionExtends(s, tail);
      if TakeObjection(s).Ok? {
        var (o, s1) := TakeObjection(s).value;
        ObjectionsExtend(n - 1, s1, read[o.id := o], tail);
      }
    }
  }

  lemma BranchTailExtends(b: Branch, s: string, tail: string)
    ensures Extends(TakeBranchTail(b, s), TakeBranchTail(b, s + tail), tail)
  {
    hide TakeNumber, TakeRefs, TakeObjections, Starts;
    NumberExtends(s, "reference count", tail);
    if TakeNumber(s, "reference count").Ok? {
      var (n, s1) := TakeNumber(s, "reference count").value;
      RefsExtend(n, s1, tail);
      if TakeRefs(n, s1).Ok? {
        var s2 := TakeRefs(n, s1).value.1;
        NumberExtends(s2, "objection count", tail);
        if TakeNumber(s2, "objection count").Ok? {
          ObjectionsExtend(TakeNumber(s2, "objection count").value.0, TakeNumber(s2, "objection count").value.1, map[], tail);
        }
      }
    }
  }

  lemma BranchExtends(s: string, tail: string)
    ensures Extends(TakeBranch(s), TakeBranch(s + tail), tail)
  {
    hide TakeField, TakeBranchTail, Starts, EmptyIsNone;
    FieldExtends(s, tail);
    if TakeField(s).Ok? {
      var (id, s1) := TakeField(s).value;
      FieldExtends(s1, tail);
      if TakeField(s1).Ok? {
        var (parent, s2) := TakeField(s1).value;
        FieldExtends(s2, tail);
        if TakeField(s2).Ok? {
          var (thesis, s3) := TakeField(s2).value;
          FieldExtends(s3, tail);
          if TakeField(s3).Ok? {
            var (play, s4) := TakeField(s3).value;
            FieldExtends(s4, tail);
            if TakeField(s4).Ok? {
              var (flag, s5) := TakeField(s4).value;
              BranchTailExtends(Branch(id, EmptyIsNone(parent), thesis, [], map[], EmptyIsNone(play), flag == "1"), s5, tail);
            }
          }
        }
      }
    }
  }

  lemma {:induction false} BranchesExtend(n: nat, s: string, read: map<string, Branch>, tail: string)
    ensures Extends(TakeBranches(n, s, read), TakeBranches(n, s + tail, read), tail)
    decreases n
  {
    hide TakeBranch, Starts;
    if n > 0 {
      BranchExtends(s, tail);
      if TakeBranch(s).Ok? {
        var (b, s1) := TakeBranch(s).value;
        BranchesExtend(n - 1, s1, read[b.id := b], tail);
      }
    }
  }

  /** A text that reads as a book does not read as one with anything behind it. */
  lemma NothingFollows(s: string, tail: string)
    requires BookOf(s).Ok? && tail != ""
    ensures BookOf(s + tail).Err?
    ensures Starts(tail) ==> BookOf(s + tail) == Err(Malformed("trailing bytes"))
  {
    hide TakeField, TakeNumber, TakeBranches, Starts, EmptyIsNone, VersionAfter;
    assert HEADER <= s + tail && (s + tail)[|HEADER|..] == s[|HEADER|..] + tail;
    var s0 := s[|HEADER|..];
    FieldExtends(s0, tail);
    var s1 := TakeField(s0).value.1;
    NumberExtends(s1, "revision", tail);
    var s2 := TakeNumber(s1, "revision").value.1;
    FieldExtends(s2, tail);
    var s3 := TakeField(s2).value.1;
    NumberExtends(s3, "branch count", tail);
    var (count, s4) := TakeNumber(s3, "branch count").value;
    BranchesExtend(count, s4, map[], tail);
    assert TakeBranches(count, s4, map[]).value.1 + tail == tail;
  }
}
