/** What a configuration text means: the plain map the loader ends up with.

    `Loaded` keeps, for every name, the raw line the loader bound last; the
    value map `Meaning` is read off those lines. Names are lower-cased. */
module ConfigMeaning {
  import opened CText
  import opened ConfigLines

  // A section and a key, lower-cased, the key cut to its buffer
  type Name = (string, string)

  datatype LoadState = LoadState(sec: string, binds: map<Name, string>)

  const EMPTY := LoadState("", map[])

  function NameOf(sec: string, key: string): Name {
    (Lower(sec), Lower(Clip(key, MAX_KEY - 1)))
  }

  function Step(st: LoadState, raw: string): LoadState {
    match ParseLine(raw)
    case Inert => st
    case Header(sec) => st.(sec := sec)
    case Bind(key, val) => st.(binds := st.binds[NameOf(st.sec, key) := raw])
  }

  function Loaded(st: LoadState, lines: seq<string>): LoadState
    decreases |lines|
  {
    if lines == [] then st else Loaded(Step(st, lines[0]), lines[1..])
  }

  // The value a bound line stores
  function ValueIn(raw: string): string {
    match ParseLine(raw)
    case Bind(key, val) => Clip(val, MAX_VAL - 1)
    case _ => ""
  }

  function Values(binds: map<Name, string>): map<Name, string> {
    map n | n in binds :: ValueIn(binds[n])
  }

  function Meaning(text: string): map<Name, string> {
    Values(Loaded(EMPTY, Lines(text)).binds)
  }

  lemma {:induction false} LoadedConcat(st: LoadState, a: seq<string>, b: seq<string>)
    ensures Loaded(st, a + b) == Loaded(Loaded(st, a), b)
    decreases |a|
  {
    if a == [] {
      assert a + b == b;
    } else {
      assert (a + b)[0] == a[0] && (a + b)[1..] == a[1..] + b;
      LoadedConcat(Step(st, a[0]), a[1..], b);
    }
  }

  lemma LoadedOne(st: LoadState, raw: string)
    ensures Loaded(st, [raw]) == Step(st, raw)
  {
    assert [raw][1..] == [];
    assert Loaded(Step(st, raw), []) == Step(st, raw);
  }

  lemma LoadedSnoc(st: LoadState, lines: seq<string>, raw: string)
    ensures Loaded(st, lines + [raw]) == Step(Loaded(st, lines), raw)
  {
    LoadedConcat(st, lines, [raw]);
    LoadedOne(Loaded(st, lines), raw);
  }

  lemma LoadedPrefix(st: LoadState, lines: seq<string>, l: nat)
    requires l < |lines|
    ensures Loaded(st, lines[..l + 1]) == Step(Loaded(st, lines[..l]), lines[l])
  {
    assert lines[..l + 1] == lines[..l] + [lines[l]];
    LoadedSnoc(st, lines[..l], lines[l]);
  }
}
