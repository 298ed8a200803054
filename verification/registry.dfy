/**
 * The converter list of `MarkItDown`: registrations kept in non-decreasing
 * priority, a new one inserted after every entry of equal priority.
 */
module Registry {

  /** The built-in converter classes, and plugins by class name. */
  datatype Kind = TextKind | PdfKind | DocxKind | ImageKind | HtmlKind | AudioKind | PluginKind(name: string)

  /** A converter object: `id` is its identity, so the same object can be registered twice. */
  datatype Converter = Converter(kind: Kind, id: nat)

  /** The class name failure reports give a converter. */
  function ClassName(c: Converter): string
  {
    match c.kind
    case TextKind => "TextConverter"
    case PdfKind => "PdfConverter"
    case DocxKind => "DocxConverter"
    case ImageKind => "ImageConverter"
    case HtmlKind => "HtmlConverter"
    case AudioKind => "AudioConverter"
    case PluginKind(name) => name
  }

  /** `ConverterRegistration` */
  datatype Registration = Registration(converter: Converter, priority: real)

  /** Registrations in non-decreasing priority. */
  predicate Sorted(regs: seq<Registration>)
  {
    forall i, j :: 0 <= i < j < |regs| ==> regs[i].priority <= regs[j].priority
  }

  /**
   * Where `register_converter` inserts: the first entry with a greater
   * priority, or the end when there is none.
   */
  function InsertPosition(regs: seq<Registration>, priority: real): (k: nat)
    ensures k <= |regs|
    ensures forall i :: 0 <= i < k ==> regs[i].priority <= priority
    ensures k < |regs| ==> regs[k].priority > priority
    decreases |regs|
  {
    if regs == [] || regs[0].priority > priority then 0
    else 1 + InsertPosition(regs[1..], priority)
  }

  /** The list after inserting `r` at its position. */
  function Inserted(regs: seq<Registration>, r: Registration): seq<Registration>
  {
    var k := InsertPosition(regs, r.priority);
    regs[..k] + [r] + regs[k..]
  }

  /** Any index with the two properties of `InsertPosition` is the insert position. */
  lemma InsertPositionUnique(regs: seq<Registration>, priority: real, k: nat)
    requires k <= |regs|
    requires forall i :: 0 <= i < k ==> regs[i].priority <= priority
    requires k < |regs| ==> regs[k].priority > priority
    ensures InsertPosition(regs, priority) == k
  {
  }

  /** Inserting between a part of smaller or equal priorities and a part starting above. */
  lemma InsertBetween(pre: seq<Registration>, post: seq<Registration>, r: Registration)
    requires forall x | x in pre :: x.priority <= r.priority
    requires post != [] ==> post[0].priority > r.priority
    ensures Inserted(pre + post, r) == pre + [r] + post
  {
    var s := pre + post;
    InsertPositionUnique(s, r.priority, |pre|);
    assert s[..|pre|] == pre;
    assert s[|pre|..] == post;
  }

  /**
   * Inserting adds exactly the new entry, puts it after every entry of
   * equal or smaller priority (ties keep registration order) and leaves the
   * others in their order.
   */
  lemma InsertedContents(regs: seq<Registration>, r: Registration)
    ensures var s := Inserted(regs, r);
      var k := InsertPosition(regs, r.priority);
      && |s| == |regs| + 1 && s[k] == r
      && s[..k] + s[k + 1..] == regs
      && (forall i :: 0 <= i < k ==> s[i].priority <= r.priority)
  {
    var k := InsertPosition(regs, r.priority);
    var s := Inserted(regs, r);
    assert s[..k] == regs[..k];
    assert s[k + 1..] == regs[k..];
    assert regs == regs[..k] + regs[k..];
  }

  /** Inserting adds exactly one occurrence of the new entry. */
  lemma InsertedMultiset(regs: seq<Registration>, r: Registration)
    ensures multiset(Inserted(regs, r)) == multiset(regs) + multiset{r}
  {
    var k := InsertPosition(regs, r.priority);
    assert regs == regs[..k] + regs[k..];
  }

  /** Inserting at `k` shifts the entries from `k` on by one place. */
  lemma InsertedIndex(regs: seq<Registration>, r: Registration)
    ensures var s := Inserted(regs, r);
      var k := InsertPosition(regs, r.priority);
      && |s| == |regs| + 1 && s[k] == r
      && (forall i :: 0 <= i < k ==> s[i] == regs[i])
      && (forall i :: k < i < |s| ==> s[i] == regs[i - 1])
  {
  }

  /** Inserting into a sorted list keeps it sorted: every entry after the new one has a greater priority. */
  lemma InsertedSorted(regs: seq<Registration>, r: Registration)
    requires Sorted(regs)
    ensures var s := Inserted(regs, r);
      var k := InsertPosition(regs, r.priority);
      && Sorted(s)
      && (forall i :: k < i < |s| ==> s[i].priority > r.priority)
  {
    var k := InsertPosition(regs, r.priority);
    var s := Inserted(regs, r);
    InsertedIndex(regs, r);
    forall i | k < i < |s| ensures s[i].priority > r.priority {
      assert regs[k].priority <= regs[i - 1].priority;
    }
    forall i, j | 0 <= i < j < |s| ensures s[i].priority <= s[j].priority {
      if j < k {
        assert s[i] == regs[i] && s[j] == regs[j];
      } else if i > k {
        assert s[i] == regs[i - 1] && s[j] == regs[j - 1];
      } else if i < k && j > k {
        assert s[i] == regs[i] && s[j] == regs[j - 1];
      }
    }
  }

  /** Registering the list `rs` one by one, in order. */
  function InsertAll(regs: seq<Registration>, rs: seq<Registration>): seq<Registration>
    decreases |rs|
  {
    if rs == [] then regs else InsertAll(Inserted(regs, rs[0]), rs[1..])
  }

  /** Registering one by one keeps a sorted list sorted and adds exactly the registered entries. */
  lemma {:induction false} InsertAllSpec(regs: seq<Registration>, rs: seq<Registration>)
    requires Sorted(regs)
    ensures Sorted(InsertAll(regs, rs))
    ensures multiset(InsertAll(regs, rs)) == multiset(regs) + multiset(rs)
    decreases |rs|
  {
    if rs != [] {
      InsertedSorted(regs, rs[0]);
      InsertedMultiset(regs, rs[0]);
      InsertAllSpec(Inserted(regs, rs[0]), rs[1..]);
      assert rs == [rs[0]] + rs[1..];
    }
  }

  /**
   * Entries of one priority `p`, registered into a list whose entries up to
   * `pre` have priority at most `p` and whose rest starts above `p`, land in
   * registration order between the two parts.
   */
  lemma {:induction false} InsertRun(pre: seq<Registration>, tail: seq<Registration>, rs: seq<Registration>, p: real)
    requires forall x | x in pre :: x.priority <= p
    requires forall x | x in rs :: x.priority == p
    requires tail != [] ==> tail[0].priority > p
    ensures InsertAll(pre + tail, rs) == pre + rs + tail
    decreases |rs|
  {
    if rs == [] {
      assert pre + rs + tail == pre + tail;
    } else {
      calc {
        InsertAll(pre + tail, rs);
      == { InsertOne(pre, tail, rs[0], rs[1..]); assert rs == [rs[0]] + rs[1..]; }
        InsertAll(pre + [rs[0]] + tail, rs[1..]);
      == { InsertRun(pre + [rs[0]], tail, rs[1..], p); }
        pre + [rs[0]] + rs[1..] + tail;
      == { assert pre + [rs[0]] + rs[1..] == pre + rs; }
        pre + rs + tail;
      }
    }
  }

  /** Registering `r` first, where it lands between `pre` and `post`. */
  lemma InsertOne(pre: seq<Registration>, post: seq<Registration>, r: Registration, rest: seq<Registration>)
    requires forall x | x in pre :: x.priority <= r.priority
    requires post != [] ==> post[0].priority > r.priority
    ensures InsertAll(pre + post, [r] + rest) == InsertAll(pre + [r] + post, rest)
  {
    InsertBetween(pre, post, r);
    assert ([r] + rest)[1..] == rest;
  }

  /**
   * Six registrations whose priorities order them as `p d i h a t`,
   * registered as `t p d i h a`, end up as `p d i h a t`.
   */
  lemma SixInOrder(t: Registration, p: Registration, d: Registration, i: Registration, h: Registration, a: Registration)
    requires p.priority < d.priority < i.priority < h.priority < a.priority < t.priority
    ensures InsertAll([], [t, p, d, i, h, a]) == [p, d, i, h, a, t]
  {
    var none: seq<Registration> := [];
    calc {
      InsertAll([], [t, p, d, i, h, a]);
    == { assert [t, p, d, i, h, a] == [t] + [p, d, i, h, a]; assert none == none + none; }
      InsertAll(none + none, [t] + [p, d, i, h, a]);
    == { InsertOne(none, none, t, [p, d, i, h, a]); }
      InsertAll(none + [t] + none, [p, d, i, h, a]);
    == { assert none + [t] + none == none + [t]; assert [p, d, i, h, a] == [p] + [d, i, h, a]; }
      InsertAll(none + [t], [p] + [d, i, h, a]);
    == { InsertOne(none, [t], p, [d, i, h, a]); }
      InsertAll(none + [p] + [t], [d, i, h, a]);
    == { assert none + [p] + [t] == [p] + [t]; assert [d, i, h, a] == [d] + [i, h, a]; }
      InsertAll([p] + [t], [d] + [i, h, a]);
    == { InsertOne([p], [t], d, [i, h, a]); }
      InsertAll([p] + [d] + [t], [i, h, a]);
    == { assert [p] + [d] + [t] == [p, d] + [t]; assert [i, h, a] == [i] + [h, a]; }
      InsertAll([p, d] + [t], [i] + [h, a]);
    == { InsertOne([p, d], [t], i, [h, a]); }
      InsertAll([p, d] + [i] + [t], [h, a]);
    == { assert [p, d] + [i] + [t] == [p, d, i] + [t]; assert [h, a] == [h] + [a]; }
      InsertAll([p, d, i] + [t], [h] + [a]);
    == { InsertOne([p, d, i], [t], h, [a]); }
      InsertAll([p, d, i] + [h] + [t], [a]);
    == { assert [p, d, i] + [h] + [t] == [p, d, i, h] + [t]; assert [a] == [a] + []; }
      InsertAll([p, d, i, h] + [t], [a] + []);
    == { InsertOne([p, d, i, h], [t], a, []); }
      InsertAll([p, d, i, h] + [a] + [t], []);
    ==
      [p, d, i, h, a, t];
    }
  }
}
