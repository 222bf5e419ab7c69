/** Byte edits of a page and their undo and redo stacks: what the stacks say about past and future pages. */
module EditHistory {
  import opened EvidencePattern

  datatype Edit = Edit(offset: nat, before: bv8, after: bv8)

  /** The last edit of the stack made `page`, and the ones below it made the page before that, from `start`. */
  ghost predicate Made(start: Page, undo: seq<Edit>, page: Page)
    decreases |undo|
  {
    if undo == [] then start == page
    else
      var e := undo[|undo| - 1];
      && e.offset < PAGE_SIZE && e.before != e.after && page[e.offset] == e.after
      && Made(start, undo[..|undo| - 1], page[e.offset := e.before])
  }

  /** Redoing the stack from its top turns `page` into `tip`. */
  ghost predicate Leads(page: Page, redo: seq<Edit>, tip: Page)
    decreases |redo|
  {
    if redo == [] then page == tip
    else
      var e := redo[|redo| - 1];
      && e.offset < PAGE_SIZE && e.before != e.after && page[e.offset] == e.before
      && Leads(page[e.offset := e.after], redo[..|redo| - 1], tip)
  }

  /** A new edit on top. */
  lemma MadeByEdit(start: Page, undo: seq<Edit>, page: Page, e: Edit)
    requires Made(start, undo, page) && e.offset < PAGE_SIZE && page[e.offset] == e.before != e.after
    ensures Made(start, undo + [e], page[e.offset := e.after])
  {
    var more := undo + [e];
    assert more[..|more| - 1] == undo;
    assert page[e.offset := e.after][e.offset := e.before] == page;
  }

  /** An undo: the top of one stack goes to the other, and both still tell the truth. */
  lemma Undone(start: Page, undo: seq<Edit>, page: Page, redo: seq<Edit>, tip: Page)
    requires undo != [] && Made(start, undo, page) && Leads(page, redo, tip)
    ensures var e, rest := undo[|undo| - 1], undo[..|undo| - 1];
            var back := page[e.offset := e.before];
            back != page && Made(start, rest, back) && Leads(back, redo + [e], tip)
  {
    var e := undo[|undo| - 1];
    var back, more := page[e.offset := e.before], redo + [e];
    assert more[..|more| - 1] == redo;
    assert back[e.offset := e.after] == page;
    assert back[e.offset] != page[e.offset];
  }

  /** A redo takes the undo back. */
  lemma Redone(start: Page, undo: seq<Edit>, page: Page, redo: seq<Edit>, tip: Page)
    requires redo != [] && Made(start, undo, page) && Leads(page, redo, tip)
    ensures var e, rest := redo[|redo| - 1], redo[..|redo| - 1];
            var forth := page[e.offset := e.after];
            forth != page && Made(start, undo + [e], forth) && Leads(forth, rest, tip)
  {
    var e := redo[|redo| - 1];
    MadeByEdit(start, undo, page, e);
    assert page[e.offset := e.after][e.offset] != page[e.offset];
  }

  /** Forgetting the oldest edit moves the start up by it. */
  lemma {:induction false} Forgotten(start: Page, undo: seq<Edit>, page: Page)
    requires undo != [] && Made(start, undo, page)
    ensures undo[0].offset < PAGE_SIZE && start[undo[0].offset] == undo[0].before
    ensures Made(start[undo[0].offset := undo[0].after], undo[1..], page)
    decreases |undo|
  {
    var e, rest := undo[|undo| - 1], undo[..|undo| - 1];
    var back := page[e.offset := e.before];
    if rest == [] {
      assert start == back;
      assert start[e.offset := e.after] == page;
    } else {
      Forgotten(start, rest, back);
      assert rest[1..] == undo[1..][..|undo| - 2];
      assert rest[0] == undo[0];
    }
  }

  /** The page after undoing the whole stack. */
  function Rewound(page: Page, undo: seq<Edit>): Page
    decreases |undo|
  {
    if undo == [] then page
    else
      var e := undo[|undo| - 1];
      if e.offset < PAGE_SIZE then Rewound(page[e.offset := e.before], undo[..|undo| - 1]) else page
  }

  /** The page after redoing the whole stack. */
  function Replayed(page: Page, redo: seq<Edit>): Page
    decreases |redo|
  {
    if redo == [] then page
    else
      var e := redo[|redo| - 1];
      if e.offset < PAGE_SIZE then Replayed(page[e.offset := e.after], redo[..|redo| - 1]) else page
  }

  /** Undoing every edit of the stack gives the page it started from. */
  lemma {:induction false} UndoingAll(start: Page, undo: seq<Edit>, page: Page)
    requires Made(start, undo, page)
    ensures Rewound(page, undo) == start
    decreases |undo|
  {
    if undo != [] {
      var e := undo[|undo| - 1];
      UndoingAll(start, undo[..|undo| - 1], page[e.offset := e.before]);
    }
  }

  /** Redoing every undone edit gives the page before the first undo. */
  lemma {:induction false} RedoingAll(page: Page, redo: seq<Edit>, tip: Page)
    requires Leads(page, redo, tip)
    ensures Replayed(page, redo) == tip
    decreases |redo|
  {
    if redo != [] {
      var e := redo[|redo| - 1];
      RedoingAll(page[e.offset := e.after], redo[..|redo| - 1], tip);
    }
  }
}
