/**
 Announcing the local selection to the server, client/X11/xf_cliprdr.c: the targets of
 the selection owner become a list of formats, and the list is sent only when it differs
 from the one sent last.
 */
module Announce {
  import opened WinprStream
  import opened ClipboardFormats

  /** An entry of the client's table: the atom a target is known by and the format it stands for. */
  datatype ClientFormat = ClientFormat(atom: nat, remote: Uint32, name: Option<string>)

  // ---- From targets to formats -------------------------------------------

  function ByAtom(table: seq<ClientFormat>, atom: nat): (f: Option<ClientFormat>)
    decreases |table|
  {
    if table == [] then None else if table[0].atom == atom then Some(table[0]) else ByAtom(table[1..], atom)
  }

  predicate Has(fs: seq<Format<string>>, id: Uint32)
  {
    exists i :: 0 <= i < |fs| && fs[i].id == id
  }

  predicate IsImage(id: Uint32)
  {
    id == CF_TIFF || id == CF_DIB || id == CF_DIBV5
  }

  /** One more target: its format is added unless its id is there already. */
  function WithTarget(table: seq<ClientFormat>, fs: seq<Format<string>>, atom: nat): (r: seq<Format<string>>)
  {
    var f := ByAtom(table, atom);
    if f.None? || Has(fs, f.value.remote) then fs else fs + [Format(f.value.remote, f.value.name)]
  }

  function FromTargets(table: seq<ClientFormat>, atoms: seq<nat>): (fs: seq<Format<string>>)
  {
    if atoms == [] then [] else WithTarget(table, FromTargets(table, atoms[..|atoms| - 1]), atoms[|atoms| - 1])
  }

  predicate AnyImage(fs: seq<Format<string>>)
  {
    exists i :: 0 <= i < |fs| && IsImage(fs[i].id)
  }

  /** The announced list: an image is also offered as HTML. */
  function Announced(table: seq<ClientFormat>, html: Uint32, atoms: seq<nat>): (fs: seq<Format<string>>)
  {
    var fs := FromTargets(table, atoms);
    if AnyImage(fs) && !Has(fs, html) then fs + [Format(html, Some(HTML_FORMAT))] else fs
  }

  /** Some target stands for this format. */
  predicate Offered(table: seq<ClientFormat>, atoms: seq<nat>, id: Uint32)
  {
    exists i :: 0 <= i < |atoms| && Stands(table, atoms[i], id)
  }

  predicate Stands(table: seq<ClientFormat>, atom: nat, id: Uint32)
  {
    ByAtom(table, atom).Some? && ByAtom(table, atom).value.remote == id
  }

  lemma OfferedSnoc(table: seq<ClientFormat>, atoms: seq<nat>, atom: nat, id: Uint32)
    ensures Offered(table, atoms + [atom], id) <==> Offered(table, atoms, id) || Stands(table, atom, id)
  {
    var more := atoms + [atom];
    if Offered(table, atoms, id) {
      var i :| 0 <= i < |atoms| && Stands(table, atoms[i], id);
      assert Stands(table, more[i], id);
    } else if Stands(table, atom, id) {
      assert Stands(table, more[|atoms|], id);
    }
  }

  lemma HasSnoc(fs: seq<Format<string>>, f: Format<string>, id: Uint32)
    ensures Has(fs + [f], id) <==> Has(fs, id) || f.id == id
  {
    var more := fs + [f];
    if Has(fs, id) {
      var i :| 0 <= i < |fs| && fs[i].id == id;
      assert more[i].id == id;
    } else if f.id == id {
      assert more[|fs|].id == id;
    }
  }

  lemma SnocDistinct(fs: seq<Format<string>>, f: Format<string>)
    requires DistinctIds(fs) && !Has(fs, f.id)
    ensures DistinctIds(fs + [f])
  {
  }

  /** No id appears twice, and those that appear are the ones the targets stand for. */
  lemma {:induction false} TargetsAreOffered(table: seq<ClientFormat>, atoms: seq<nat>, id: Uint32)
    ensures DistinctIds(FromTargets(table, atoms)) && |FromTargets(table, atoms)| <= |atoms|
    ensures Has(FromTargets(table, atoms), id) <==> Offered(table, atoms, id)
    decreases |atoms|
  {
    if atoms != [] {
      var init, last := atoms[..|atoms| - 1], atoms[|atoms| - 1];
      assert atoms == init + [last];
      var fs := FromTargets(table, init);
      TargetsAreOffered(table, init, id);
      OfferedSnoc(table, init, last, id);
      var f := ByAtom(table, last);
      if f.Some? && !Has(fs, f.value.remote) {
        SnocDistinct(fs, Format(f.value.remote, f.value.name));
        HasSnoc(fs, Format(f.value.remote, f.value.name), id);
      }
    }
  }

  /** Some target stands for one of the picture formats. */
  predicate OffersImage(table: seq<ClientFormat>, atoms: seq<nat>)
  {
    Offered(table, atoms, 6) || Offered(table, atoms, 8) || Offered(table, atoms, 17)
  }

  lemma ImageIsOffered(table: seq<ClientFormat>, atoms: seq<nat>)
    ensures AnyImage(FromTargets(table, atoms)) <==> OffersImage(table, atoms)
  {
    TargetsAreOffered(table, atoms, 6);
    TargetsAreOffered(table, atoms, 8);
    TargetsAreOffered(table, atoms, 17);
    var fs := FromTargets(table, atoms);
    if AnyImage(fs) {
      var i :| 0 <= i < |fs| && IsImage(fs[i].id);
      assert Has(fs, fs[i].id);
    }
    if OffersImage(table, atoms) {
      var id :| id in {6, 8, 17} && Has(fs, id);
      var i :| 0 <= i < |fs| && fs[i].id == id;
      assert IsImage(fs[i].id);
    }
  }

  /**
   The announced list has no id twice and at most one entry more than there are targets.
   Its ids are those the targets stand for, and HTML if one of them is a picture.
   */
  lemma AnnouncedExactly(table: seq<ClientFormat>, html: Uint32, atoms: seq<nat>, id: Uint32)
    ensures var fs := Announced(table, html, atoms);
            && DistinctIds(fs) && |fs| <= |atoms| + 1
            && (Has(fs, id) <==> Offered(table, atoms, id) || (id == html && OffersImage(table, atoms)))
  {
    var fs := FromTargets(table, atoms);
    TargetsAreOffered(table, atoms, id);
    ImageIsOffered(table, atoms);
    if AnyImage(fs) && !Has(fs, html) {
      SnocDistinct(fs, Format(html, Some(HTML_FORMAT)));
      HasSnoc(fs, Format(html, Some(HTML_FORMAT)), id);
    }
  }

  /** This entry of the list is the one that a target stands for, name and all. */
  predicate FromAtom(table: seq<ClientFormat>, atoms: seq<nat>, f: Format<string>)
  {
    exists i :: 0 <= i < |atoms| && ByAtom(table, atoms[i]).Some?
                && f == Format(ByAtom(table, atoms[i]).value.remote, ByAtom(table, atoms[i]).value.name)
  }

  lemma {:induction false} EntriesFromAtoms(table: seq<ClientFormat>, atoms: seq<nat>, k: nat)
    requires k < |FromTargets(table, atoms)|
    ensures FromAtom(table, atoms, FromTargets(table, atoms)[k])
    decreases |atoms|
  {
    var init, last := atoms[..|atoms| - 1], atoms[|atoms| - 1];
    var fs := FromTargets(table, init);
    if k < |fs| {
      EntriesFromAtoms(table, init, k);
      var i :| 0 <= i < |init| && ByAtom(table, init[i]).Some?
               && fs[k] == Format(ByAtom(table, init[i]).value.remote, ByAtom(table, init[i]).value.name);
      assert atoms[i] == init[i];
    } else {
      assert atoms[|atoms| - 1] == last;
    }
  }

  /** Every entry has the id and the name of a target's format; only one for HTML may be added behind, for a picture. */
  lemma EntriesExactly(table: seq<ClientFormat>, html: Uint32, atoms: seq<nat>, k: nat)
    requires k < |Announced(table, html, atoms)|
    ensures var fs := Announced(table, html, atoms);
            || FromAtom(table, atoms, fs[k])
            || (k == |fs| - 1 && fs[k] == Format(html, Some("HTML Format")) && OffersImage(table, atoms))
  {
    ImageIsOffered(table, atoms);
    if k < |FromTargets(table, atoms)| { EntriesFromAtoms(table, atoms, k); }
  }

  /** A target is known by the first entry of the table with its atom. */
  lemma {:induction false} AtomIsFirst(table: seq<ClientFormat>, atom: nat, i: nat)
    requires i < |table| && table[i].atom == atom && forall j :: 0 <= j < i ==> table[j].atom != atom
    ensures ByAtom(table, atom) == Some(table[i])
    decreases i
  {
    if i > 0 {
      assert table[1..][i - 1] == table[i];
      AtomIsFirst(table[1..], atom, i - 1);
    }
  }

  // ---- Has the selection changed? ----------------------------------------

  function AsSet(fs: seq<Format<string>>): (s: set<Format<string>>)
  {
    set f | f in fs
  }

  predicate NoDuplicates(fs: seq<Format<string>>)
  {
    forall i, j :: 0 <= i < j < |fs| ==> fs[i] != fs[j]
  }

  /** xf_clipboard_changed: another length, or something sent last is missing now. */
  predicate Changed(last: seq<Format<string>>, now: seq<Format<string>>)
  {
    |last| != |now| || exists i :: 0 <= i < |last| && last[i] !in now
  }

  lemma SetOfCons(fs: seq<Format<string>>, f: Format<string>)
    ensures AsSet([f] + fs) == AsSet(fs) + {f}
  {
  }

  lemma {:induction false} SetSize(fs: seq<Format<string>>)
    ensures |AsSet(fs)| <= |fs|
    decreases |fs|
  {
    if fs != [] {
      SetSize(fs[1..]);
      SetOfCons(fs[1..], fs[0]);
      assert fs == [fs[0]] + fs[1..];
    }
  }

  lemma {:induction false} SetSizeOfDistinct(fs: seq<Format<string>>)
    requires NoDuplicates(fs)
    ensures |AsSet(fs)| == |fs|
    decreases |fs|
  {
    if fs != [] {
      SetSizeOfDistinct(fs[1..]);
      SetOfCons(fs[1..], fs[0]);
      assert fs == [fs[0]] + fs[1..];
      assert fs[0] !in fs[1..];
    }
  }

  lemma SubsetOfSameSize(a: set<Format<string>>, b: set<Format<string>>)
    requires a <= b && |b| <= |a|
    ensures a == b
  {
    assert (b - a) + a == b && (b - a) !! a;
    assert |b| == |b - a| + |a|;
  }

  /** A list without duplicates that is as long and holds everything is the same set. */
  lemma UnchangedIsSameSet(last: seq<Format<string>>, now: seq<Format<string>>)
    requires NoDuplicates(last) && !Changed(last, now)
    ensures AsSet(last) == AsSet(now)
  {
    SetSizeOfDistinct(last);
    SetSize(now);
    assert forall f :: f in last ==> f in now;
    SubsetOfSameSize(AsSet(last), AsSet(now));
  }

  /** Between lists without duplicates a change is a change of the set, whatever the order. */
  lemma ChangedIsSetChange(last: seq<Format<string>>, now: seq<Format<string>>)
    requires NoDuplicates(last) && NoDuplicates(now)
    ensures Changed(last, now) <==> AsSet(last) != AsSet(now)
  {
    if AsSet(last) == AsSet(now) {
      SetSizeOfDistinct(last);
      SetSizeOfDistinct(now);
      forall i | 0 <= i < |last| ensures last[i] in now {
        assert last[i] in AsSet(last);
      }
    } else if !Changed(last, now) {
      UnchangedIsSameSet(last, now);
    }
  }

  function LongestName(fs: seq<Format<string>>): (n: nat)
    ensures forall i :: 0 <= i < |fs| && fs[i].name.Some? ==> |fs[i].name.value| <= n
  {
    if fs == [] then 0
    else
      var rest := LongestName(fs[1..]);
      assert forall i :: 0 < i < |fs| ==> fs[i] == fs[1..][i - 1];
      if fs[0].name.Some? && |fs[0].name.value| > rest then |fs[0].name.value| else rest
  }

  lemma NewFormat(fs: seq<Format<string>>) returns (f: Format<string>)
    ensures f !in fs
  {
    f := Format(0, Some(seq(LongestName(fs) + 1, _ => 'x')));
  }

  lemma DuplicateHidesChange(last: seq<Format<string>>, i: nat, j: nat) returns (now: seq<Format<string>>)
    requires i < j < |last| && last[i] == last[j]
    ensures !Changed(last, now) && AsSet(last) != AsSet(now)
  {
    var f := NewFormat(last);
    now := last[j := f];
    forall k | 0 <= k < |last| ensures last[k] in now {
      assert now[if k == j then i else k] == last[k];
    }
    assert now[j] == f && f in AsSet(now);
  }

  /** "No change" always means the same set exactly for a last list without duplicates. */
  lemma UnchangedExactly(last: seq<Format<string>>)
    ensures (forall now :: !Changed(last, now) ==> AsSet(last) == AsSet(now)) <==> NoDuplicates(last)
  {
    if NoDuplicates(last) {
      forall now | !Changed(last, now) ensures AsSet(last) == AsSet(now) {
        UnchangedIsSameSet(last, now);
      }
    } else {
      var i, j :| 0 <= i < j < |last| && last[i] == last[j];
      var now := DuplicateHidesChange(last, i, j);
    }
  }

  // ---- Runs --------------------------------------------------------------

  /** The list remembered as sent, and everything announced to the server. */
  datatype Client = Client(last: seq<Format<string>>, sent: seq<seq<Format<string>>>)

  datatype Event = Poll(formats: seq<Format<string>>, force: bool) | ServerList

  function Step(c: Client, e: Event): (r: Client)
  {
    match e
    case Poll(fs, force) => if force || Changed(c.last, fs) then Client(fs, c.sent + [fs]) else c
    case ServerList => c.(last := [])
  }

  function Run(c: Client, es: seq<Event>): (r: Client)
    decreases |es|
  {
    if es == [] then c else Run(Step(c, es[0]), es[1..])
  }

  predicate ProperPolls(es: seq<Event>)
  {
    forall i :: 0 <= i < |es| && es[i].Poll? ==> NoDuplicates(es[i].formats)
  }

  /** What is remembered is what was announced last, unless the server's clipboard came in between. */
  predicate Inv(c: Client)
  {
    NoDuplicates(c.last) && (c.last != [] ==> c.sent != [] && c.sent[|c.sent| - 1] == c.last)
  }

  lemma {:induction false} RunKeepsInv(c: Client, es: seq<Event>)
    requires Inv(c) && ProperPolls(es)
    ensures Inv(Run(c, es))
    decreases |es|
  {
    if es != [] {
      assert ProperPolls(es[1..]) by { assert forall i :: 0 <= i < |es[1..]| ==> es[1..][i] == es[i + 1]; }
      assert es[0].Poll? ==> NoDuplicates(es[0].formats);
      RunKeepsInv(Step(c, es[0]), es[1..]);
    }
  }

  /**
   After any run, a poll that is not forced announces exactly when the set of formats
   differs from the one remembered; and afterwards the last announcement has the set of
   the selection, unless the selection is empty.
   */
  lemma PollAnnouncesChange(es: seq<Event>, fs: seq<Format<string>>, force: bool)
    requires ProperPolls(es) && NoDuplicates(fs)
    ensures var c := Run(Client([], []), es);
            var d := Step(c, Poll(fs, force));
            && (d.sent == c.sent + [fs] <==> force || AsSet(c.last) != AsSet(fs))
            && (d.sent == c.sent || d.sent == c.sent + [fs])
            && (fs != [] ==> d.sent != [] && AsSet(d.sent[|d.sent| - 1]) == AsSet(fs))
  {
    var c := Run(Client([], []), es);
    RunKeepsInv(Client([], []), es);
    ChangedIsSetChange(c.last, fs);
    if !force && !Changed(c.last, fs) {
      assert |c.last| == |fs|;
    }
  }

  /** After the server's clipboard came in, the selection is announced again even if it has not changed. */
  lemma ServerListForgets(c: Client, fs: seq<Format<string>>, force: bool)
    ensures var d := Step(Step(c, ServerList), Poll(fs, force));
            d.sent == if force || fs != [] then c.sent + [fs] else c.sent
  {
    assert |c.sent + [fs]| == |c.sent| + 1;
    if fs == [] && !force { assert !Changed([], fs); }
  }

  /** The targets of the selection are looked at, or the server's clipboard comes in. */
  datatype Look = Look(atoms: seq<nat>, force: bool) | ServerLook

  function PollOf(table: seq<ClientFormat>, html: Uint32, l: Look): (e: Event)
  {
    match l
    case Look(atoms, force) => Poll(Announced(table, html, atoms), force)
    case ServerLook => ServerList
  }

  function PollsOf(table: seq<ClientFormat>, html: Uint32, ls: seq<Look>): (es: seq<Event>)
    ensures |es| == |ls| && forall i :: 0 <= i < |ls| ==> es[i] == PollOf(table, html, ls[i])
  {
    seq(|ls|, i requires 0 <= i < |ls| => PollOf(table, html, ls[i]))
  }

  lemma TargetListsAreProper(table: seq<ClientFormat>, html: Uint32, atoms: seq<nat>)
    ensures NoDuplicates(Announced(table, html, atoms))
  {
    AnnouncedExactly(table, html, atoms, 0);
  }

  /**
   Whatever selections are looked at, in every run the next look announces exactly when it is
   forced or the set of formats differs from the remembered one; and afterwards the last
   announcement has the formats of the selection, unless there are none.
   */
  lemma LooksAnnounceChange(table: seq<ClientFormat>, html: Uint32, ls: seq<Look>, atoms: seq<nat>, force: bool)
    ensures var fs := Announced(table, html, atoms);
            var c := Run(Client([], []), PollsOf(table, html, ls));
            var d := Step(c, PollOf(table, html, Look(atoms, force)));
            && (d.sent == c.sent + [fs] <==> force || AsSet(c.last) != AsSet(fs))
            && (d.sent == c.sent || d.sent == c.sent + [fs])
            && (fs != [] ==> d.sent != [] && AsSet(d.sent[|d.sent| - 1]) == AsSet(fs))
  {
    var es := PollsOf(table, html, ls);
    forall i | 0 <= i < |es| && es[i].Poll? ensures NoDuplicates(es[i].formats) {
      TargetListsAreProper(table, html, ls[i].atoms);
    }
    TargetListsAreProper(table, html, atoms);
    PollAnnouncesChange(es, Announced(table, html, atoms), force);
  }

  // ---- The code ----------------------------------------------------------

  method GetClientFormatByAtom(table: seq<ClientFormat>, atom: nat) returns (f: Option<ClientFormat>)
    ensures f == ByAtom(table, atom)
  {
    var i := 0;
    while i < |table|
      invariant 0 <= i <= |table|
      invariant ByAtom(table, atom) == ByAtom(table[i..], atom)
    {
      assert table[i..][0] == table[i] && table[i..][1..] == table[i + 1..];
      if table[i].atom == atom { return Some(table[i]); }
      i := i + 1;
    }
    assert table[i..] == [];
    return None;
  }

  method ShouldAddFormat(formats: array<Format<string>>, count: nat, f: Option<ClientFormat>) returns (add: bool)
    requires count <= formats.Length
    ensures add <==> f.Some? && !Has(formats[..count], f.value.remote)
  {
    if f.None? { return false; }
    var x := 0;
    while x < count
      invariant 0 <= x <= count
      invariant forall i :: 0 <= i < x ==> formats[i].id != f.value.remote
    {
      if formats[x].id == f.value.remote {
        assert formats[..count][x].id == f.value.remote;
        return false;
      }
      x := x + 1;
    }
    return true;
  }

  lemma ImageSnoc(fs: seq<Format<string>>, f: Format<string>)
    ensures AnyImage(fs + [f]) <==> AnyImage(fs) || IsImage(f.id)
  {
    var more := fs + [f];
    if AnyImage(fs) {
      var i :| 0 <= i < |fs| && IsImage(fs[i].id);
      assert IsImage(more[i].id);
    } else if IsImage(f.id) {
      assert IsImage(more[|fs|].id);
    }
  }

  /** One entry written behind the others; the flags say whether HTML and an image have been seen. */
  method AddFormat(formats: array<Format<string>>, count: nat, f: Format<string>, html: Uint32,
                   hasHtml: bool, isImage: bool)
    returns (html': bool, image': bool)
    requires count < formats.Length
    requires hasHtml == Has(formats[..count], html) && isImage == AnyImage(formats[..count])
    modifies formats
    ensures formats[..count + 1] == old(formats[..count]) + [f]
    ensures html' == Has(formats[..count + 1], html) && image' == AnyImage(formats[..count + 1])
  {
    ghost var before := formats[..count];
    HasSnoc(before, f, html);
    ImageSnoc(before, f);
    formats[count] := f;
    html' := hasHtml || f.id == html;
    image' := isImage || f.id == CF_TIFF || f.id == CF_DIB || f.id == CF_DIBV5;
    assert formats[..count + 1] == before + [f];
  }

  /** xf_cliprdr_get_formats_from_targets; the buffer has room for one entry more than there are targets. */
  method GetFormatsFromTargets(table: seq<ClientFormat>, html: Uint32, atoms: seq<nat>)
    returns (formats: array<Format<string>>, count: nat, isImage: bool)
    ensures fresh(formats) && count <= formats.Length == |atoms| + 1
    ensures formats[..count] == Announced(table, html, atoms)
    ensures isImage == AnyImage(FromTargets(table, atoms))
  {
    formats := new Format<string>[|atoms| + 1](_ => Format(0, None));
    count, isImage := 0, false;
    var hasHtml := false;
    var i := 0;
    while i < |atoms|
      invariant 0 <= count <= i <= |atoms|
      invariant fresh(formats)
      invariant formats[..count] == FromTargets(table, atoms[..i])
      invariant hasHtml == Has(formats[..count], html) && isImage == AnyImage(formats[..count])
    {
      assert atoms[..i + 1][..i] == atoms[..i];
      var f := GetClientFormatByAtom(table, atoms[i]);
      var add := ShouldAddFormat(formats, count, f);
      if add {
        hasHtml, isImage := AddFormat(formats, count, Format(f.value.remote, f.value.name), html, hasHtml, isImage);
        count := count + 1;
      }
      i := i + 1;
    }
    assert atoms[..i] == atoms;
    if isImage && !hasHtml {
      formats[count] := Format(html, Some(HTML_FORMAT));
      count := count + 1;
    }
  }

  /** xf_clipboard_changed. */
  method ClipboardChanged(last: seq<Format<string>>, formats: seq<Format<string>>) returns (changed: bool)
    ensures changed == Changed(last, formats)
  {
    if |last| != |formats| { return true; }
    var x := 0;
    while x < |last|
      invariant 0 <= x <= |last|
      invariant forall i :: 0 <= i < x ==> last[i] in formats
    {
      var contained := false;
      var y := 0;
      while y < |formats|
        invariant 0 <= y <= |formats|
        invariant forall j :: 0 <= j < y ==> formats[j] != last[x]
      {
        if last[x] == formats[y] {
          contained := true;
          break;
        }
        y := y + 1;
      }
      if !contained {
        assert last[x] !in formats;
        return true;
      }
      x := x + 1;
    }
    return false;
  }
}
