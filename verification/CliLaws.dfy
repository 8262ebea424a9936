/** What whole runs of keys do to the edited line. */
module CliLaws {
  import opened CliHistory
  import opened CliEditor

  function Times(n: nat, key: Key): (keys: seq<Key>)
    ensures |keys| == n
  {
    seq(n, _ => key)
  }

  function Typed(w: string): (keys: seq<Key>)
    ensures |keys| == |w|
  {
    seq(|w|, k requires 0 <= k < |w| => Char(w[k]))
  }

  /** The keys can be pressed from st on with screen and line agreeing, and they lead to st'. */
  ghost predicate Leads(st: State, keys: seq<Key>, st': State) {
    StateOk(st) && SafeRun(st, keys) && PressAll(st, keys) == st' && StateOk(st')
  }

  lemma Alone(st: State, key: Key)
    requires StateOk(st) && Safe(st, key)
    ensures Leads(st, [key], Press(st, key))
  {
    PressOk(st, key);
    assert [key][1..] == [];
  }

  lemma {:induction false} Chain(st: State, keys: seq<Key>, mid: State, more: seq<Key>, end: State)
    requires Leads(st, keys, mid) && Leads(mid, more, end)
    ensures Leads(st, keys + more, end)
    decreases |keys|
  {
    if keys == [] {
      assert keys + more == more;
    } else {
      assert (keys + more)[0] == keys[0] && (keys + more)[1..] == keys[1..] + more;
      PressOk(st, keys[0]);
      Chain(Press(st, keys[0]), keys[1..], mid, more, end);
    }
  }

  /** Typing a text that fits inserts it at the insertion point, which goes behind it. */
  lemma {:induction false} TypingInserts(st: State, w: string)
    requires StateOk(st) && |st.text| + |w| <= BUFFER_SIZE && forall k :: 0 <= k < |w| ==> Printable(w[k])
    ensures Leads(st, Typed(w), st.(text := st.text[..st.insert] + w + st.text[st.insert..], insert := st.insert + |w|))
    decreases |w|
  {
    var end := st.text[..st.insert] + w + st.text[st.insert..];
    if w == "" {
      assert end == st.text;
    } else {
      Alone(st, Char(w[0]));
      var st1 := PressAll(st, [Char(w[0])]);
      assert st1.text == st.text[..st.insert] + [w[0]] + st.text[st.insert..];
      TypingInserts(st1, w[1..]);
      assert st1.text[..st1.insert] + w[1..] + st1.text[st1.insert..] == end;
      Chain(st, [Char(w[0])], st1, Typed(w[1..]), st.(text := end, insert := st.insert + |w|));
      assert [Char(w[0])] + Typed(w[1..]) == Typed(w);
    }
  }

  /** A character that is not printable, or finds the line full, changes nothing. */
  lemma OthersIgnored(st: State, c: char)
    requires StateOk(st) && (!Printable(c) || |st.text| == BUFFER_SIZE)
    ensures Leads(st, [Char(c)], st)
  {
    Alone(st, Char(c));
  }

  /** Backspace removes the characters before the insertion point. */
  lemma {:induction false} BackspacesErase(st: State, n: nat)
    requires StateOk(st) && n <= st.insert
    ensures Leads(st, Times(n, Backspace),
                  st.(text := st.text[..st.insert - n] + st.text[st.insert..], insert := st.insert - n))
    decreases n
  {
    var end := st.text[..st.insert - n] + st.text[st.insert..];
    if n == 0 {
      assert end == st.text;
    } else {
      Alone(st, Backspace);
      var st1 := PressAll(st, [Backspace]);
      BackspacesErase(st1, n - 1);
      assert st1.text[..st1.insert - (n - 1)] + st1.text[st1.insert..] == end;
      Chain(st, [Backspace], st1, Times(n - 1, Backspace), st.(text := end, insert := st.insert - n));
      assert [Backspace] + Times(n - 1, Backspace) == Times(n, Backspace);
    }
  }

  /** Typing a text and erasing it again changes nothing. */
  lemma TypeThenErase(st: State, w: string)
    requires StateOk(st) && |st.text| + |w| <= BUFFER_SIZE && forall k :: 0 <= k < |w| ==> Printable(w[k])
    ensures Leads(st, Typed(w) + Times(|w|, Backspace), st)
  {
    TypingInserts(st, w);
    var st1 := PressAll(st, Typed(w));
    BackspacesErase(st1, |w|);
    assert st1.text[..st.insert] + st1.text[st1.insert..] == st.text;
    Chain(st, Typed(w), st1, Times(|w|, Backspace), st);
  }

  lemma {:induction false} LeftsMove(st: State, n: nat)
    requires StateOk(st)
    ensures Leads(st, Times(n, Left), st.(insert := if n <= st.insert then st.insert - n else 0))
    decreases n
  {
    if n > 0 {
      Alone(st, Left);
      var st1 := PressAll(st, [Left]);
      LeftsMove(st1, n - 1);
      Chain(st, [Left], st1, Times(n - 1, Left), st.(insert := if n <= st.insert then st.insert - n else 0));
      assert [Left] + Times(n - 1, Left) == Times(n, Left);
    }
  }

  lemma {:induction false} RightsMove(st: State, n: nat)
    requires StateOk(st)
    ensures Leads(st, Times(n, Right), st.(insert := if st.insert + n <= |st.text| then st.insert + n else |st.text|))
    decreases n
  {
    if n > 0 {
      Alone(st, Right);
      var st1 := PressAll(st, [Right]);
      RightsMove(st1, n - 1);
      Chain(st, [Right], st1, Times(n - 1, Right),
            st.(insert := if st.insert + n <= |st.text| then st.insert + n else |st.text|));
      assert [Right] + Times(n - 1, Right) == Times(n, Right);
    }
  }

  /** Moving left and right again by as much changes nothing, short of the start of the line. */
  lemma LeftThenRight(st: State, n: nat)
    requires StateOk(st) && n <= st.insert
    ensures Leads(st, Times(n, Left) + Times(n, Right), st)
  {
    LeftsMove(st, n);
    RightsMove(PressAll(st, Times(n, Left)), n);
    Chain(st, Times(n, Left), PressAll(st, Times(n, Left)), Times(n, Right), st);
  }

  /** Text typed after moving left n times from the end of the line comes to stand n characters before its end. */
  lemma LeftThenType(st: State, n: nat, w: string)
    requires StateOk(st) && st.insert == |st.text| && n <= |st.text|
    requires |st.text| + |w| <= BUFFER_SIZE && forall k :: 0 <= k < |w| ==> Printable(w[k])
    ensures Leads(st, Times(n, Left) + Typed(w),
                  st.(text := st.text[..|st.text| - n] + w + st.text[|st.text| - n..], insert := |st.text| - n + |w|))
  {
    LeftsMove(st, n);
    var st1 := PressAll(st, Times(n, Left));
    TypingInserts(st1, w);
    Chain(st, Times(n, Left), st1, Typed(w), PressAll(st1, Typed(w)));
  }

  /** Up n times, from an empty line that has not been looked up, shows the n-th newest line of the history. */
  lemma {:induction false} UpsShow(st: State, n: nat)
    requires StateOk(st) && st.cursor == 0 && 0 < n <= |st.lines|
    ensures Leads(st, Times(n, Up), State(st.lines[n - 1], |st.lines[n - 1]|, st.lines, n))
    decreases n
  {
    if n == 1 {
      Alone(st, Up);
      assert Times(1, Up) == [Up];
    } else {
      UpsShow(st, n - 1);
      var st1 := PressAll(st, Times(n - 1, Up));
      Alone(st1, Up);
      Chain(st, Times(n - 1, Up), st1, [Up], PressAll(st1, [Up]));
      assert Times(n - 1, Up) + [Up] == Times(n, Up);
    }
  }

  /** Down m times after Up n times goes back to the newer lines, and not beyond the newest. */
  lemma {:induction false} UpsThenDowns(st: State, n: nat, m: nat)
    requires StateOk(st) && st.cursor == 0 && 0 < n <= |st.lines|
    ensures var k := if m < n then n - m else 1;
            Leads(st, Times(n, Up) + Times(m, Down), State(st.lines[k - 1], |st.lines[k - 1]|, st.lines, k))
    decreases m
  {
    if m == 0 {
      UpsShow(st, n);
      assert Times(n, Up) + Times(0, Down) == Times(n, Up);
    } else {
      UpsThenDowns(st, n, m - 1);
      var st1 := PressAll(st, Times(n, Up) + Times(m - 1, Down));
      Alone(st1, Down);
      Chain(st, Times(n, Up) + Times(m - 1, Down), st1, [Down], PressAll(st1, [Down]));
      assert Times(n, Up) + Times(m - 1, Down) + [Down] == Times(n, Up) + Times(m, Down);
    }
  }

  /** Entering a line and going up shows it again. */
  lemma EnterThenUp(st: State, output: string)
    requires StateOk(st) && st.text != ""
    ensures exists st' :: Leads(st, [Enter(output), Up], st') && st'.text == st.text && st'.insert == |st.text|
  {
    Alone(st, Enter(output));
    var st1 := PressAll(st, [Enter(output)]);
    Alone(st1, Up);
    Chain(st, [Enter(output)], st1, [Up], PressAll(st1, [Up]));
    assert [Enter(output)] + [Up] == [Enter(output), Up];
  }

  /** Typing and entering one line after the other. */
  function Entering(ws: seq<string>, output: string): seq<Key> {
    if ws == [] then [] else Entering(ws[..|ws| - 1], output) + (Typed(ws[|ws| - 1]) + [Enter(output)])
  }

  ghost predicate Entered(ws: seq<string>, st: State) {
    && st.text == "" && st.insert == 0 && st.cursor == 0 && StateOk(st)
    && |st.lines| == (if |ws| < NUM then |ws| else NUM)
    && forall k :: 0 <= k < |st.lines| ==> st.lines[k] == ws[|ws| - 1 - k]
  }

  lemma EnterNext(ws: seq<string>, st: State, output: string)
    requires ws != [] && Entered(ws[..|ws| - 1], st) && IsLine(ws[|ws| - 1]) && ws[|ws| - 1] != ""
    requires |ws| > 1 ==> ws[|ws| - 1] != ws[|ws| - 2]
    ensures exists st' :: Leads(st, Typed(ws[|ws| - 1]) + [Enter(output)], st') && Entered(ws, st')
  {
    var w := ws[|ws| - 1];
    TypingInserts(st, w);
    assert "" + w + "" == w;
    var st1 := PressAll(st, Typed(w));
    assert st1.text == w;
    Alone(st1, Enter(output));
    var st2 := PressAll(st1, [Enter(output)]);
    Chain(st, Typed(w), st1, [Enter(output)], st2);
    assert st2.lines == if |st.lines| < NUM then [w] + st.lines else [w] + st.lines[..NUM - 1];
    assert Entered(ws, st2);
  }

  /** From an empty line and history, entering lines that differ from the one before and pressing Up n times
      shows the n-th last of them, for n up to the size of the history. */
  lemma {:induction false} HistoryShows(ws: seq<string>, output: string)
    requires forall k :: 0 <= k < |ws| ==> IsLine(ws[k]) && ws[k] != "" && (k > 0 ==> ws[k] != ws[k - 1])
    ensures exists st :: Leads(State("", 0, [], 0), Entering(ws, output), st) && Entered(ws, st)
    ensures forall n :: 0 < n <= |ws| && n <= NUM ==>
              exists st :: Leads(State("", 0, [], 0), Entering(ws, output) + Times(n, Up), st)
                           && st.text == ws[|ws| - n] && st.insert == |st.text|
    decreases |ws|
  {
    var st0 := State("", 0, [], 0);
    if ws == [] {
      assert Entered(ws, st0) && Leads(st0, [], st0);
    } else {
      HistoryShows(ws[..|ws| - 1], output);
      var st1 :| Leads(st0, Entering(ws[..|ws| - 1], output), st1) && Entered(ws[..|ws| - 1], st1);
      EnterNext(ws, st1, output);
      var st2 :| Leads(st1, Typed(ws[|ws| - 1]) + [Enter(output)], st2) && Entered(ws, st2);
      Chain(st0, Entering(ws[..|ws| - 1], output), st1, Typed(ws[|ws| - 1]) + [Enter(output)], st2);
      forall n | 0 < n <= |ws| && n <= NUM
        ensures exists st :: Leads(st0, Entering(ws, output) + Times(n, Up), st)
                             && st.text == ws[|ws| - n] && st.insert == |st.text| {
        UpsShow(st2, n);
        var st3 := PressAll(st2, Times(n, Up));
        Chain(st0, Entering(ws, output), st2, Times(n, Up), st3);
      }
    }
  }
}
