/** The symbols strict mode does not allow, in the order in which they are tried. */
module Symbols {

  import opened Precheck

  const DESCRIPTORS: seq<string> := [
    "Object.defineProperty", "Object.getOwnPropertyDescriptor", "Object.defineProperties"]

  const BUFFERS: seq<string> := [
    "ArrayBuffer", "DataView", "Uint8Array", "Uint8ClampedArray"]

  const INTEGERS: seq<string> := [
    "Int8Array", "Int16Array", "Int32Array", "Uint16Array", "Uint32Array"]

  const FLOATS: seq<string> := [
    "Float32Array", "Float16Array", "Float64Array"]

  const WIDE: seq<string> := [
    "BigInt64Array", "BigUint64Array", "TypedArray", "SharedArrayBuffer"]

  const GLOBALS: seq<string> := [
    "Atomics", "parseInt", "parseFloat", "isNaN", "isFinite", "eval"]

  const FUNCTIONS: seq<string> := [
    "Function", "AsyncFunction", "Generator", "GeneratorFunction"]

  const GENERATORS: seq<string> := [
    "AsyncGenerator", "AsyncGeneratorFunction", "AsyncIterator"]

  const OBJECTS: seq<string> := [
    "Proxy", "Reflect", "WeakMap", "WeakSet", "WeakRef"]

  const STACKS: seq<string> := [
    "FinalizationRegistry", "DisposableStack", "AsyncDisposableStack"]

  const OTHERS: seq<string> := [
    "Intl", "globalThis", "escape", "unescape"]

  const NODE_COMPAT_SYMBOLS: seq<string> :=
    DESCRIPTORS + BUFFERS + INTEGERS + FLOATS + WIDE + GLOBALS
    + FUNCTIONS + GENERATORS + OBJECTS + STACKS + OTHERS

  lemma {:induction false} DescriptorsSearchable()
    ensures AllSearchable(DESCRIPTORS)
  {
    forall n | 0 <= n < |DESCRIPTORS| ensures Searchable(DESCRIPTORS[n]) {
      assert Dotted(DESCRIPTORS[n], 6);
      DottedSearchable(DESCRIPTORS[n], 6);
    }
  }

  lemma {:induction false} WordsSearchable(symbols: seq<string>)
    requires AllWords(symbols)
    ensures AllSearchable(symbols)
  {
    forall n | 0 <= n < |symbols| ensures Searchable(symbols[n]) {
      WordSearchable(symbols[n]);
    }
  }

  lemma {:induction false} BothSearchable(a: seq<string>, b: seq<string>)
    requires AllSearchable(a) && AllSearchable(b)
    ensures AllSearchable(a + b)
  {
  }

  lemma {:induction false} BuffersAreWords()
    ensures AllWords(BUFFERS)
  {
    assert Word("ArrayBuffer");
    assert Word("DataView");
    assert Word("Uint8Array");
    assert Word("Uint8ClampedArray");
  }

  lemma {:induction false} IntegersAreWords()
    ensures AllWords(INTEGERS)
  {
  }

  lemma {:induction false} FloatsAreWords()
    ensures AllWords(FLOATS)
  {
  }

  lemma {:induction false} WideAreWords()
    ensures AllWords(WIDE)
  {
    assert Word("BigInt64Array");
    assert Word("BigUint64Array");
    assert Word("TypedArray");
    assert Word("SharedArrayBuffer");
  }

  lemma {:induction false} GlobalsAreWords()
    ensures AllWords(GLOBALS)
  {
  }

  lemma {:induction false} FunctionsAreWords()
    ensures AllWords(FUNCTIONS)
  {
    assert Word("Function");
    assert Word("AsyncFunction");
    assert Word("Generator");
    assert Word("GeneratorFunction");
  }

  lemma {:induction false} GeneratorsAreWords()
    ensures AllWords(GENERATORS)
  {
  }

  lemma {:induction false} ObjectsAreWords()
    ensures AllWords(OBJECTS)
  {
  }

  lemma {:induction false} StacksAreWords()
    ensures AllWords(STACKS)
  {
    assert Word("FinalizationRegistry");
    assert Word("DisposableStack");
    assert Word("AsyncDisposableStack");
  }

  lemma {:induction false} OthersAreWords()
    ensures AllWords(OTHERS)
  {
  }

  /** For every one of the symbols the search overlooks no use. */
  lemma {:induction false} SymbolsSearchable()
    ensures AllSearchable(NODE_COMPAT_SYMBOLS)
  {
    DescriptorsSearchable();
    BuffersAreWords();
    WordsSearchable(BUFFERS);
    BothSearchable(DESCRIPTORS, BUFFERS);
    IntegersAreWords();
    WordsSearchable(INTEGERS);
    BothSearchable(DESCRIPTORS + BUFFERS, INTEGERS);
    FloatsAreWords();
    WordsSearchable(FLOATS);
    BothSearchable(DESCRIPTORS + BUFFERS + INTEGERS, FLOATS);
    WideAreWords();
    WordsSearchable(WIDE);
    BothSearchable(DESCRIPTORS + BUFFERS + INTEGERS + FLOATS, WIDE);
    GlobalsAreWords();
    WordsSearchable(GLOBALS);
    BothSearchable(DESCRIPTORS + BUFFERS + INTEGERS + FLOATS + WIDE, GLOBALS);
    FunctionsAreWords();
    WordsSearchable(FUNCTIONS);
    BothSearchable(DESCRIPTORS + BUFFERS + INTEGERS + FLOATS + WIDE + GLOBALS, FUNCTIONS);
    GeneratorsAreWords();
    WordsSearchable(GENERATORS);
    BothSearchable(DESCRIPTORS + BUFFERS + INTEGERS + FLOATS + WIDE + GLOBALS + FUNCTIONS, GENERATORS);
    ObjectsAreWords();
    WordsSearchable(OBJECTS);
    BothSearchable(DESCRIPTORS + BUFFERS + INTEGERS + FLOATS + WIDE + GLOBALS + FUNCTIONS + GENERATORS, OBJECTS);
    StacksAreWords();
    WordsSearchable(STACKS);
    BothSearchable(DESCRIPTORS + BUFFERS + INTEGERS + FLOATS + WIDE + GLOBALS + FUNCTIONS + GENERATORS + OBJECTS, STACKS);
    OthersAreWords();
    WordsSearchable(OTHERS);
    BothSearchable(DESCRIPTORS + BUFFERS + INTEGERS + FLOATS + WIDE + GLOBALS + FUNCTIONS + GENERATORS + OBJECTS + STACKS, OTHERS);
  }
}
