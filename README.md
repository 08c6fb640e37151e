# Rosewood: a Dafny model of the asset build engine, its data format and the engine core

Rosewood is a small game engine with a build server. The build server watches
asset sources and rebuilds derived files (meshes, copied textures, shaders)
through a graph of file and task nodes. It records content hashes of every
task's inputs in a cache written in RBDEF, the engine's tagged binary format.
The engine reads RBDEF back through a C++ reader into an `Object` value. On
top of that it runs an entity/component store, events, a transform tree and a
GL renderer whose state is cached. This project models those parts in Dafny
and proves what each of them promises.

One module per source file, one `.dfy` file per module:

- **Build engine** (build-server/build):
  - `BuildGraph` models build_graph.py: reciprocal edge sets, the per-output hash cache, `is_invalid`, `run_task`, `remove_node`, cache save and load, and the build command;
  - `BuildPaths` models the POSIX path functions and `change_ext`/`should_ignore`;
  - `BuildTasks` models build_tasks.py: first-match dispatch, mesh/copy/shader task wiring, and the shader task's rewiring;
  - `IncrementalGraph` models incremental_graph.py: the DFS without a visited set and the changed/appeared/disappeared cases;
  - `CacheFormat` models the cache file as an RBDEF dict.
- **RBDEF codec:**
  - `RbdefEncode` and `RbdefDecode` model encode.py and decode.py, with the values of `PyValues` and the big-endian integers of `ByteOrder`;
  - `RbdefRoundTrip` proves `load` inverts `dump`;
  - `RbdefExamples` holds the doctests on their exact bytes.
- **C++ data format:**
  - `DataObject` models the `Object` tagged union;
  - `Conversions` models `as<T>`/`convert`;
  - `DataReader` models reader.cc;
  - `DataReaderRoundTrip` proves the reader accepts what the Python writer produces;
  - `DataFormatExamples` states the gtest cases of tests/data_format_tests.cc that expect no decimal float value.
- **Engine core:**
  - `StableVectors` (sliced vector with stable addresses);
  - `Entities` (id allocator and per-type component arrays);
  - `EntityScenarios` (its tests);
  - `ComponentArrays` (flagged slots and skip-to-occupied iteration);
  - `TypeCodes` (first-use type codes);
  - `Events` (listener registry);
  - `Transforms` (parent/child tree and dirty flag);
  - `Variants` (tagged storage with a construction/destruction log);
  - `MetaLists` (type-list functions);
  - `Resources` (loaders, asset cache, views);
  - `FrameClock`;
  - `Logging`.
- **Graphics:**
  - `GlState` is the GL state cache, with the GL calls it issues as a trace;
  - `Shaders` covers attribute layout and spec reading;
  - `Materials` covers vertex-buffer bookkeeping and draw counters;
  - `RenderQueues` covers command order and flush batching;
  - `Matrix4` covers the index layout;
  - `Floats` holds IEEE 754 bit patterns, copied and compared only.
- **Importers:**
  - `FbxParser` models the text FBX parser;
  - `FbxParserExamples` holds its unit tests;
  - `FbxMesh` models the index and list helpers;
  - `ObjImporter` models the OBJ reader.
- `Wrappers` (Option, Result), `Sequences` (list helpers) and `Division` (facts about `/` and `%`) are shared.

How source forms map to Dafny:

- **State changed in place** becomes a `class`. Its methods are proved against functions of the old state. Loops become methods with invariants.
- **Pure code** becomes functions and lemmas.
- **Environment parameters:**
  - the file system is a map from path to contents;
  - SHA-1 is an uninterpreted function;
  - a task's `run` body is an oracle that returns a boolean or raises, and leaves files behind;
  - the wall clock, the names GL generates and the answers GL gives are parameters.
- **Errors the source raises or asserts** become `Failure` values: Python exceptions, C++ `assert`s, and out-of-bounds reads.

Recursion over graphs that may have cycles carries a `fuel` bound. In the DFS the bound is Python's recursion limit. In the transform tree it is the number of transforms, which an acyclic tree never exhausts.

## Model

| member | source | states |
|---|---|---|
| ByteOrder.DecodeUnsigned | build-server/rbdef/decode.py:57-58 | the unsigned big-endian value of a field (`'>I'`/`'>Q'`) is below 256^width |
| ByteOrder.EncodeUnsigned | build-server/rbdef/encode.py:13-19 | `struct.pack('>I'/'>Q')`: exactly width bytes, which DecodeUnsigned reads back as n |
| ByteOrder.EncodeDecodeUnsigned | build-server/rbdef/decode.py:57-58 | re-packing the value read from a field gives back the same bytes, so a field is determined by its value |
| ByteOrder.DecodeSigned | build-server/rbdef/decode.py:61-62 | the two's-complement reading of a field (`'>i'`/`'>q'`) lies in the signed range of its width |
| ByteOrder.EncodeSigned | build-server/rbdef/encode.py:53-58 | `struct.pack('>i'/'>q')`: width bytes in two's complement, read back by DecodeSigned as n |
| PyValues.DictGet | build-server/rbdef/decode.py:79-81 | a dict built from pairs finds a key iff some pair has an equal key, and then holds that pair's value |
| PyValues.LaterDuplicateWins | build-server/rbdef/decode.py:81 | `dict(pairs)`: the last pair for a key decides its value |
| PyValues.OtherKeysDoNotMatter | build-server/rbdef/decode.py:81 | pairs with a different key do not change a lookup |
| PyValues.Utf8Char | build-server/rbdef/encode.py:91-98 | `encode('utf-8')` of one code point: 1 to 4 bytes, a single byte exactly for ASCII, equal to the code point |
| PyValues.Utf8 | build-server/rbdef/encode.py:91-98 | UTF-8 of a text is at least as long as the text, and is the text itself when all of it is ASCII |
| RbdefEncode.DumpUint | build-server/rbdef/encode.py:13-19 | `_dump_uint`: below 2^32 the small tag and 4 bytes, else the large tag and 8 bytes, carrying n; fails (struct.error) from 2^64 |
| RbdefEncode.DumpInt | build-server/rbdef/encode.py:44-60 | `dump_int`: 'i' + 4 bytes strictly inside (-2^31, 2^31), 'I' + 8 bytes strictly inside (-2^63, 2^63) (so -2^31 takes 'I'), otherwise ValueError; the payload decodes to n |
| RbdefEncode.DumpStr | build-server/rbdef/encode.py:80-88 | `dump_str`: the length header ('s' or 'S') carrying the byte count, then the bytes verbatim |
| RbdefEncode.Dump | build-server/rbdef/encode.py:134-158 | `dump` dispatches None, bool before int, int, str, unicode, list/tuple, dict, else ValueError; whatever it writes is non-empty |
| RbdefEncode.DumpSucceeds | build-server/rbdef/encode.py:134-158 | `dump` raises nothing exactly on the values it can write: no `long` or other type, every int strictly inside (-2^63, 2^63), every length and count below 2^64, at every depth |
| RbdefEncode.DumpItemsSucceed | build-server/rbdef/encode.py:112-113 | the elements are written without error exactly when each of them can be |
| RbdefEncode.DumpEntriesSucceed | build-server/rbdef/encode.py:129-131 | the pairs are written without error exactly when every key and every value can be |
| RbdefEncode.Dumps | build-server/rbdef/encode.py:161-170 | `dumps` returns bytes, never empty, exactly when the value can be serialized, and otherwise raises |
| RbdefEncode.DumpItemsCons | build-server/rbdef/encode.py:101-113 | `dump_array`'s loop writes the first element, then the rest, in order |
| RbdefEncode.DumpEntriesCons | build-server/rbdef/encode.py:116-131 | `dump_dict`'s loop writes the first key, then its value, then the remaining pairs |
| RbdefDecode.Read | build-server/rbdef/decode.py:52-71 | `fp.read(n)` returns the next min(n, remaining) bytes and leaves the rest unread |
| RbdefDecode.LoadUint | build-server/rbdef/decode.py:50-58 | `_load_uint`: 4 bytes ('>I') or 8 bytes ('>Q') when large, big-endian; struct.error on short input |
| RbdefDecode.LoadInt | build-server/rbdef/decode.py:61-62 | `_load_int`: 'i' reads 4 bytes, otherwise 8, as a signed big-endian integer, consuming exactly that many |
| RbdefDecode.LoadFloat | build-server/rbdef/decode.py:65-66 | `_load_float`: 4 bytes for 'p', 8 for 'P', consumed and kept uninterpreted |
| RbdefDecode.LoadStr | build-server/rbdef/decode.py:69-71 | `_load_str`: a length ('S' large) then `read(size)` of the following bytes |
| RbdefDecode.Load | build-server/rbdef/decode.py:84-112 | `load` always consumes at least the discriminator byte |
| RbdefDecode.LoadArray | build-server/rbdef/decode.py:74-76 | `_load_array` yields a list and never reads past its input |
| RbdefDecode.LoadDict | build-server/rbdef/decode.py:79-81 | `_load_dict` yields a dict and never reads past its input |
| RbdefDecode.LoadItems | build-server/rbdef/decode.py:76 | `[load(fp) for _ in range(n)]` yields exactly n values |
| RbdefDecode.LoadEntries | build-server/rbdef/decode.py:81 | the dict comprehension reads n key/value pairs and every stored key is hashable |
| RbdefDecode.Loads | build-server/rbdef/decode.py:115-121 | `loads(b)` succeeds iff `load` does on b, with the same value |
| RbdefDecode.LoadDispatch | build-server/rbdef/decode.py:84-112 | the first byte alone selects the reader ('n', 'f', 't', 'i'/'I', 'p'/'P', 's'/'S', 'a'/'A', 'd'/'D'), which starts right after it; any other byte is ValueError |
| RbdefDecode.LoadDictBody | build-server/rbdef/decode.py:79-81 | after its count a dict reads exactly its pairs and fails as they fail |
| RbdefDecode.LoadAtEnd | build-server/rbdef/decode.py:86-112 | on empty input `read(1)` gives b'' and `load` raises ValueError |
| RbdefDecode.LoadItemsStep | build-server/rbdef/decode.py:76 | each element is read where the previous one ended |
| RbdefDecode.LoadEntriesStep | build-server/rbdef/decode.py:81 | key then value, and the next pair starts where the value ended |
| RbdefRoundTrip.UintRoundTrip | build-server/rbdef/decode.py:57-58 | a count or length header written by `_dump_uint` is read back by `_load_uint`, which stops right after it |
| RbdefRoundTrip.RoundTrip | build-server/rbdef/decode.py:6-7 | `load` reads back the one value `dump` wrote (unicode as its UTF-8 bytes, tuples as lists) and leaves the following bytes unread |
| RbdefRoundTrip.IntRoundTrip | build-server/rbdef/decode.py:18-21 | every integer `dump_int` accepts reads back unchanged, in both widths |
| RbdefRoundTrip.StrRoundTrip | build-server/rbdef/decode.py:28-29 | a byte string reads back verbatim, NULs included |
| RbdefRoundTrip.ArrayRoundTrip | build-server/rbdef/decode.py:31-32 | a written list or tuple reads back as the list of its decoded elements |
| RbdefRoundTrip.DictRoundTrip | build-server/rbdef/decode.py:34-36 | a written dict with scalar keys reads back with its decoded pairs in order (unicode keys as bytes) |
| RbdefRoundTrip.ItemsRoundTrip | build-server/rbdef/decode.py:74-76 | n written values are read back by n loads, consuming exactly their bytes |
| RbdefRoundTrip.EntriesRoundTrip | build-server/rbdef/decode.py:79-81 | n written pairs are read back as n pairs, consuming exactly their bytes |
| RbdefRoundTrip.LoadsDumps | build-server/rbdef/decode.py:6-7 | `loads(dumps(v))` gives the decoded form of v for every value `dumps` accepts |
| RbdefRoundTrip.UnhashableKeyEntries | build-server/rbdef/decode.py:81 | a pair whose key reads back as a list or dict is written without complaint but raises TypeError when read |
| RbdefRoundTrip.UnhashableKeyDict | build-server/rbdef/decode.py:79-81 | the same failure seen through `load` of the whole dict |
| RbdefRoundTrip.TupleKeyDoesNotRoundTrip | build-server/rbdef/encode.py:116-131 | `{(1,): 3}` is written by `dumps`, but `loads` of the result fails |
| RbdefExamples.Int32Field | build-server/rbdef/encode.py:53-55 | a non-negative integer below 2^31 is 'i' followed by its 4-byte field |
| RbdefExamples.Int64Field | build-server/rbdef/encode.py:56-58 | a non-negative integer in [2^31, 2^63) is 'I' followed by its 8-byte field |
| RbdefExamples.SmallCount | build-server/rbdef/encode.py:13-16 | a count below 256 is the small tag, three zero bytes and the count |
| RbdefExamples.ShortStr | build-server/rbdef/encode.py:80-88 | a byte string shorter than 256 is 's', 0, 0, 0, its length, then the bytes |
| RbdefExamples.ShortAscii | build-server/rbdef/encode.py:91-98 | a short ASCII unicode text is written as its own characters and reads back as those bytes |
| RbdefExamples.ShortText | build-server/rbdef/encode.py:91-98 | a unicode text is written as the string form of its UTF-8 encoding |
| RbdefExamples.ScalarDoctests | build-server/rbdef/encode.py:22-41 | the doctests: `dumps(None) == b'n'`, `dumps(False) == b'f'`, `dumps(True) == b't'` |
| RbdefExamples.Int32Doctest | build-server/rbdef/encode.py:47-48 | the doctest `dumps(0x0a0b0c0d) == b'i\x0a\x0b\x0c\x0d'` |
| RbdefExamples.Int64Doctest | build-server/rbdef/encode.py:49-50 | the doctest for 0x0a0b0c0d0e0f0001 in the 'I' form |
| RbdefExamples.StrDoctest | build-server/rbdef/encode.py:83-84 | the doctest `dumps('test\x00more')`, and decode.py's doctest that it reads back as bytes |
| RbdefExamples.UnicodeDoctest | build-server/rbdef/encode.py:94-95 | the doctest `dumps('åäö')`: length 6, then the UTF-8 bytes |
| RbdefExamples.LoadsIntDoctests | build-server/rbdef/decode.py:18-21 | the doctests `loads(dumps(123)) == 123` and `loads(dumps(2**54)) == 2**54` |
| DataObject.Blank | src/data-format/object.cc:5-44 | `Object(DataType)` sets the tag and leaves every payload empty, so a string starts as the empty string; `Object()` is the Null case |
| DataObject.Copy | src/data-format/object.cc:46-69 | the copy constructor keeps the tag and the value the tag selects, and leaves the other slots empty |
| DataObject.ActiveItemsAgree | src/data-format/object.cc:62-64 | arrays whose elements hold pairwise equal values hold the same value, so copying element by element keeps an array's value |
| DataObject.ActiveEntriesAgree | src/data-format/object.cc:65-67 | dictionaries with the same keys and pairwise equal values hold the same value |
| DataObject.CopyItems | src/data-format/object.cc:62-64 | the copied vector has the same length, and element i is the copy of element i |
| DataObject.CopyEntries | src/data-format/object.cc:65-67 | the copied map has the same keys, and each value is the copy of the original value |
| DataObject.CopyOfCanonical | src/data-format/object.cc:46-69 | copying an object whose unselected slots are already empty gives back the same object |
| DataObject.CopyDropsUnselectedSlots | src/data-format/object.cc:46-69 | a witness: a Null object carrying stale int and string bits is copied without them, but still holds the same value |
| DataObject.Destroyed | src/data-format/object.cc:7-24 | the destructor empties the string, array and dictionary payloads and leaves the tag and the scalar slots as they are |
| DataObject.WriteFrom | src/data-format/object.cc:74-96 | the second half of `operator=` gives the destination the other object's tag and its selected value |
| DataObject.Assigned | src/data-format/object.cc:71-97 | after `a = b` of two distinct objects, a has b's tag and value; a string payload is b's bytes, an array or dictionary payload is b's elements each copy-constructed |
| DataObject.AssignedIntoDefault | src/data-format/object.cc:71-97 | assigning into a default-constructed object gives exactly the copy constructor's result |
| DataObject.SelfAssignedAsWritten | src/data-format/object.cc:71-97 | `a = a` as written is undefined exactly for string, array and dictionary objects (the destroyed payload is read back as the source); for the other tags the value is kept |
| DataObject.SelfAssignmentReadsDestroyed | src/data-format/object.cc:71-97 | a one-byte string object assigned to itself reads its destroyed string, while the guarded assignment keeps the string |
| DataObject.AssignedChecked | src/data-format/object.cc:71-97 | assignment with a self-check: a self-assignment leaves the object unchanged, and any assignment gives b's tag and value |
| DataObject.MakeNull | src/data-format/object.cc:99 | `make_null` gives the Null value with nothing stored |
| DataObject.MakeBoolean | src/data-format/object.cc:101-105 | `make_boolean(b)` gives a Boolean holding b |
| DataObject.MakeInt | src/data-format/object.cc:107-112 | `make_int(n)` gives an IntOrFloat with int64 n and float64 the double nearest n |
| DataObject.MakeFloat | src/data-format/object.cc:114-118 | `make_float(d)` gives a Float holding d |
| DataObject.MakeString | src/data-format/object.cc:120-124 | `make_string(s)` gives a String holding the bytes s |
| DataObject.MakeArray | src/data-format/object.cc:126-130 | `make_array(items)` gives an Array with as many elements as items, holding the items' values in order |
| DataObject.MakeDictionary | src/data-format/object.cc:132-136 | `make_dictionary(d)` gives a Dictionary with d's keys, each holding its value in d |
| DataObject.MakeKeepsCanonical | src/data-format/object.cc:126-136 | arrays and dictionaries built from objects with empty unselected slots store those objects unchanged |
| Conversions.UnsignedCast | engine/data-format/include/rosewood/data-format/object_conversions.h:20-30 | a C cast to an unsigned type of width bytes is the value modulo 256^width |
| Conversions.SignedCast | engine/data-format/include/rosewood/data-format/object_conversions.h:15-25 | a C cast to a signed type lies in that type's range and agrees with the unsigned cast modulo 256^width |
| Conversions.CastsKeepInRange | engine/data-format/include/rosewood/data-format/object_conversions.h:13-31 | a value the target type can hold passes through either cast unchanged |
| Conversions.SignedCastIsLowBytes | engine/data-format/include/rosewood/data-format/object_conversions.h:15-25 | the signed cast gives the two's-complement reading of the low width bytes |
| Conversions.AsBool | engine/data-format/include/rosewood/data-format/object_conversions.h:8-11 | the conversion succeeds exactly for a Boolean and then gives the stored boolean; anything else fails with NotBoolean |
| Conversions.AsInteger | engine/data-format/include/rosewood/data-format/object_conversions.h:13-36 | integer conversions succeed exactly for IntOrFloat and give int64 cast to the target width, in range for a signed or unsigned target |
| Conversions.AsInt | engine/data-format/include/rosewood/data-format/object_conversions.h:13-16 | `int` gives the 32-bit signed cast of int64 |
| Conversions.AsUnsignedInt | engine/data-format/include/rosewood/data-format/object_conversions.h:18-21 | `unsigned int` gives int64 modulo 2^32 |
| Conversions.AsLong | engine/data-format/include/rosewood/data-format/object_conversions.h:23-26 | `long` is the signed cast at the platform's long width, which is int64 itself when long is 8 bytes |
| Conversions.AsUnsignedLong | engine/data-format/include/rosewood/data-format/object_conversions.h:28-31 | `unsigned long` is the unsigned cast at the platform's long width |
| Conversions.AsLongLong | engine/data-format/include/rosewood/data-format/object_conversions.h:33-36 | `long long` succeeds exactly for IntOrFloat and gives int64 unchanged |
| Conversions.AsDouble | engine/data-format/include/rosewood/data-format/object_conversions.h:44-48 | `double` succeeds exactly for IntOrFloat and Float and gives the stored float64; anything else fails with NotFloating |
| Conversions.AsFloat | engine/data-format/include/rosewood/data-format/object_conversions.h:38-42 | `float` accepts the same tags as `double` and gives the stored double narrowed to single precision |
| Conversions.AsString | engine/data-format/include/rosewood/data-format/object_conversions.h:50-53 | the conversion succeeds exactly for a String and then gives its bytes; anything else fails with NotString |
| Conversions.MadeIntConverts | engine/data-format/include/rosewood/data-format/object_conversions.h:13-48 | a `make_int(n)` object converts back to n as `long long`, as `int` and as `unsigned int` when n fits, and to the double nearest n |
| Conversions.ConvertedItems | engine/data-format/include/rosewood/data-format/object_conversions.h:60-62 | a successful element-by-element conversion has one result per element |
| Conversions.ConvertedItemsMeaning | engine/data-format/include/rosewood/data-format/object_conversions.h:55-63 | the vector conversion succeeds exactly when every element converts, and element i of the result is element i converted; otherwise it reports the first element that fails |
| Conversions.AsVector | engine/data-format/include/rosewood/data-format/object_conversions.h:55-63 | `as<std::vector<T>>` fails with NotArray on a non-array, and otherwise converts the elements in order |
| Conversions.ConvertVector | engine/data-format/include/rosewood/data-format/object_conversions.h:55-63 | the loop appends each converted element, in order, to what the result vector already held, or reports the error AsVector reports |
| Conversions.ConvertedAfterStep | engine/data-format/include/rosewood/data-format/object_conversions.h:60-62 | one pass of the loop moves the next element from the rest to the converted part |
| Conversions.AsMap | engine/data-format/include/rosewood/data-format/object_conversions.h:65-73 | `as<std::unordered_map<std::string, T>>` fails with NotDictionary on a non-dictionary, and otherwise keeps the key set and converts every value |
| Conversions.ConvertMap | engine/data-format/include/rosewood/data-format/object_conversions.h:65-73 | the loop over the map stores every converted value under its key, over whatever the result held there; a failure is the error of some value that does not convert |
| DataReader.ReadUnsigned | engine/data-format/src/reader.cc:40-48 | `read_number` of an unsigned type succeeds exactly when width bytes remain, gives a value below 256^width and ends width bytes later; a short source fails with Truncated |
| DataReader.ReadSigned | engine/data-format/src/reader.cc:40-48 | `read_number` of a signed type succeeds exactly when width bytes remain, and gives a value in that type's signed range |
| DataReader.ReadString | engine/data-format/src/reader.cc:51-58 | `read_string` takes the length field and then exactly that many bytes, ending inside the source |
| DataReader.ReadScalar | engine/data-format/src/reader.cc:96-140 | the tags n, f, t, i, I, p, P, s and S give an object that is neither an array nor a dictionary and end strictly after the tag; any other byte is refused (also line 155) |
| DataReader.ReadArray | engine/data-format/src/reader.cc:61-73 | `read_array` ends strictly after its count field and inside the source |
| DataReader.ReadDictionary | engine/data-format/src/reader.cc:76-93 | `read_dictionary` ends strictly after its count field and inside the source |
| DataReader.ReadFrom | engine/data-format/src/reader.cc:96-156 | `read_from` at any position either fails or gives an object ending strictly after that position and inside the source; a position past the end fails |
| DataReader.ReadItems | engine/data-format/src/reader.cc:67-69 | the array loop appends exactly n objects, and ends no earlier than it started |
| DataReader.ReadEntry | engine/data-format/src/reader.cc:83-88 | one pass of the dictionary loop ends strictly after where it started |
| DataReader.ReadEntries | engine/data-format/src/reader.cc:82-89 | the dictionary loop ends no earlier than it started and inside the source |
| DataReader.ItemsStep | engine/data-format/src/reader.cc:67-69 | one pass of the array loop appends the object read at the current position and goes on where that object ends |
| DataReader.EntriesStep | engine/data-format/src/reader.cc:82-89 | one pass of the dictionary loop stores one pair and goes on where its value ends |
| DataReader.ArrayTag | engine/data-format/src/reader.cc:142-146 | a tag `a` or `A` gives `make_array` of the array read after the tag, with a four- or eight-byte count |
| DataReader.DictionaryTag | engine/data-format/src/reader.cc:148-152 | a tag `d` or `D` gives `make_dictionary` of the pairs read after the tag |
| DataReader.EntryStored | engine/data-format/src/reader.cc:83-88 | a fresh string key followed by a readable value stores that value under the key's bytes, and reading goes on after the value |
| DataReader.ReadData | engine/data-format/src/reader.cc:159-161 | `read_data` is `read_from` at position 0, and bytes after the first object are ignored |
| DataReader.ReadObject | engine/data-format/src/reader.cc:96-156 | the method that threads the end position through each branch returns exactly ReadFrom |
| DataReader.ReadArrayObjects | engine/data-format/src/reader.cc:61-73 | the count header then the item loop return exactly ReadArray |
| DataReader.ReadItemObjects | engine/data-format/src/reader.cc:66-68 | the loop pushing `length` objects in order, each read where the previous ended, returns exactly ReadItems |
| DataReader.ReadDictionaryObjects | engine/data-format/src/reader.cc:76-93 | the count header then the pair loop return exactly ReadDictionary |
| DataReader.ReadEntryObjects | engine/data-format/src/reader.cc:81-88 | the loop checking each key (a string not stored yet) before reading its value returns exactly ReadEntries |
| DataReaderRoundTrip.ActiveSeq | engine/data-format/src/reader.cc:61-73 | the values held by a sequence of objects: one per object |
| DataReaderRoundTrip.ActiveMap | engine/data-format/src/reader.cc:76-93 | the values held by a map of objects, under the same keys |
| DataReaderRoundTrip.ArrayHolds | engine/data-format/src/reader.cc:142-146 | the array `make_array` builds holds the values of its elements in order |
| DataReaderRoundTrip.DictionaryHolds | engine/data-format/src/reader.cc:148-152 | the dictionary `make_dictionary` builds holds the values of its entries under their keys |
| DataReaderRoundTrip.ActiveSeqSnoc | engine/data-format/src/reader.cc:68 | appending an object appends its value |
| DataReaderRoundTrip.ActiveMapUpdate | engine/data-format/src/reader.cc:88 | storing an object under a key stores its value under that key |
| DataReaderRoundTrip.HoldsString | engine/data-format/src/reader.cc:136-140 | only a String object holds a string value, and then its bytes are that string |
| DataReaderRoundTrip.IntReadBack | engine/data-format/src/reader.cc:112-116 | the bytes Python writes for an integer read back as an IntOrFloat holding that integer, ending right after them |
| DataReaderRoundTrip.StrReadBack | engine/data-format/src/reader.cc:136-140 | the bytes Python writes for a byte string read back as that string, ending right after them |
| DataReaderRoundTrip.ReadBack | engine/data-format/src/reader.cc:96-156 | wherever it sits in a source, the dump of any float-free value the reader accepts reads back as that value and ends right after the dump |
| DataReaderRoundTrip.CountReadBack | engine/data-format/src/reader.cc:63-78 | a dumped count field reads back as that count, and what follows starts right after it |
| DataReaderRoundTrip.ArrayBodyReadBack | engine/data-format/src/reader.cc:61-73 | `read_array` after a dumped list's tag gives the values of its elements and ends at the end of the dump |
| DataReaderRoundTrip.ArrayReadBack | engine/data-format/src/reader.cc:142-146 | a dumped list reads back as an array of its elements' values |
| DataReaderRoundTrip.DictBodyReadBack | engine/data-format/src/reader.cc:76-93 | `read_dictionary` after a dumped dict's tag stores its values under its keys' bytes and ends at the end of the dump |
| DataReaderRoundTrip.DictReadBack | engine/data-format/src/reader.cc:148-152 | a dumped dict with distinct string keys reads back as a dictionary of its values |
| DataReaderRoundTrip.ItemsHead | engine/data-format/src/reader.cc:67-69 | the first dumped element reads back, and the rest of the dump starts where it ends |
| DataReaderRoundTrip.ItemsReadBack | engine/data-format/src/reader.cc:67-69 | the array loop over dumped elements appends exactly their values |
| DataReaderRoundTrip.KeyHead | engine/data-format/src/reader.cc:83-85 | the first dumped key reads back as a String holding its bytes, and its value's dump follows |
| DataReaderRoundTrip.ValueHead | engine/data-format/src/reader.cc:87 | a dumped value followed by more bytes reads back, and the rest starts where it ends |
| DataReaderRoundTrip.PairStored | engine/data-format/src/reader.cc:83-88 | a fresh string key and the value after it are stored in one pass of the dictionary loop |
| DataReaderRoundTrip.EntriesHead | engine/data-format/src/reader.cc:82-89 | the first dumped pair is stored, adding exactly its key, and the rest of the dump starts where it ends |
| DataReaderRoundTrip.EntriesReadBack | engine/data-format/src/reader.cc:82-89 | the dictionary loop over dumped pairs stores exactly their values under their keys' bytes |
| DataReaderRoundTrip.ReadDataOfDump | engine/data-format/src/reader.cc:159-161 | `read_data` of a whole Python dump of a float-free, readable value holds that value |
| DataReaderRoundTrip.IntegerKeyIsRefused | engine/data-format/src/reader.cc:84 | Python writes `{1: None}` without complaint, but the reader refuses it because the key is not a string |
| DataFormatExamples.ReadNull | tests/data_format_tests.cc:9-11 | `n` reads as the null object |
| DataFormatExamples.ReadInt64 | tests/data_format_tests.cc:30-35 | `I\x0a\x0b\x0c\x0d\x0e\x0f\x00\x01` reads as the integer 0x0a0b0c0d0e0f0001, held as both int64 and its nearest double |
| DataFormatExamples.ReadStringLarge | tests/data_format_tests.cc:56-61 | `S`, an eight-byte length 9 and `test\0more` read as the same nine-byte string |
| DataFormatExamples.ReadDictionarySmall | tests/data_format_tests.cc:151-173 | `d`, a four-byte count 3 and the pairs `"true": t`, `"false": f`, `"four": i 4` read as the dictionary made from those three entries, whose values are exactly true, false and the integer 4 with its double |
| DataFormatExamples.ReadDictionaryLarge | tests/data_format_tests.cc:175-197 | `D`, an eight-byte count 3 and the same pairs read as the same dictionary |
| DataFormatExamples.PairsDictionary | tests/data_format_tests.cc:158-172 | that dictionary has the tag Dictionary, exactly the keys "true", "false" and "four", and the expected value under each |
| DataFormatExamples.HomogenousIntArrayConversion | tests/data_format_tests.cc:222-232 | `a`, a count 4 and the integers 2, 4, 6, 8 read as the array of those integers; it converts to the vector [2, 4, 6, 8] of int, and to the vector of floats each narrowed from the integer's nearest double |
| DataFormatExamples.StringNumberDictionary | tests/data_format_tests.cc:245-261 | `d`, a count 4 and the pairs two, six, one, ten read as the dictionary of those integers, which converts to the map {one: 1, two: 2, six: 6, ten: 10} of int |
| DataFormatExamples.DecodeFour | tests/data_format_tests.cc:23-28 | a four-byte big-endian field is its digits in base 256 |
| DataFormatExamples.ReadInt32 | tests/data_format_tests.cc:23-28 | `i\x0a\x0b\x0c\x0d` reads as the integer 0x0a0b0c0d, held as both int64 and float64 |
| DataFormatExamples.IntConversion | tests/data_format_tests.cc:199-208 | that object converts to 0x0a0b0c0d as int, unsigned int, long and unsigned long (for both widths of long), to the nearest double, and as float to that double narrowed to single precision |
| DataFormatExamples.ReadStringWithNul | tests/data_format_tests.cc:49-54 | `s\0\0\0\x09test\0more` reads as the nine-byte string with its NUL |
| DataFormatExamples.BoolConversion | tests/data_format_tests.cc:13-21 | `t` and `f` read as the booleans true and false and convert to them (also lines 210-220) |
| BuildGraph.Disk.Unlink | build-server/build/incremental_graph.py:47 | deleting an existing file removes exactly that path from the file system |
| BuildGraph.Disk.Store | build-server/build/build_graph.py:168 | the file system becomes what a task's `run` left |
| BuildGraph.Disk.Write | build-server/build/build_graph.py:199-200 | writing a file replaces its contents and changes no other path |
| BuildGraph.OutputValidIff | build-server/build/build_graph.py:72-87 | an existing output is valid exactly when every source is as cached: a cached source exists with the cached hash, and an uncached one does not exist |
| BuildGraph.FreshCacheIsValid | build-server/build/build_graph.py:62-87 | right after `cache_build`, with the disk unchanged, `is_invalid` is false |
| BuildGraph.SourceChangeInvalidates | build-server/build/build_graph.py:62-87 | after `cache_build`, editing a source to other contents, deleting it or creating it makes the output invalid |
| BuildGraph.KeptFreshCache | build-server/build/build_graph.py:62-70 | loading back a saved dict that holds what `cache_build` recorded restores exactly that cache |
| BuildGraph.FreshCacheAdd | build-server/build/build_graph.py:62-65 | one more source adds one hash to `cache_build`'s dict when that source exists, and nothing otherwise |
| BuildGraph.KeptCacheAdd | build-server/build/build_graph.py:67-70 | one more source adds its entry to `load_build_cache`'s dict when the saved dict has it |
| BuildGraph.ConnectKeepsEdges | build-server/build/build_graph.py:10-12 | `connect_nodes` keeps `edges_in` and `edges_out` mirror images of each other, and every edge joins a file and a task |
| BuildGraph.DisconnectKeepsEdges | build-server/build/build_graph.py:15-17 | `disconnect_nodes` keeps the edge maps mirror images and every edge between a file and a task |
| BuildGraph.ConnectedFromOut | build-server/build/build_graph.py:94-95 | the input loop adds the task to the outputs of exactly the input nodes |
| BuildGraph.ConnectedFromIn | build-server/build/build_graph.py:94-95 | the input loop gives the task the inputs as new `edges_in` and changes no other node's inputs |
| BuildGraph.ConnectedFromMeaning | build-server/build/build_graph.py:94-95 | the input loop adds exactly the edges input to task, and no other edge |
| BuildGraph.ConnectedToIn | build-server/build/build_graph.py:97-98 | the output loop adds the task to the inputs of exactly the output nodes |
| BuildGraph.ConnectedToOut | build-server/build/build_graph.py:97-98 | the output loop gives the task the outputs as new `edges_out` and changes no other node's outputs |
| BuildGraph.ConnectedToMeaning | build-server/build/build_graph.py:97-98 | the output loop adds exactly the edges task to output, and no other edge |
| BuildGraph.WiredMeaning | build-server/build/build_graph.py:91-98 | a new task ends up with exactly the given inputs and outputs, is added to each input's outputs and each output's inputs, and no other edge changes |
| BuildGraph.NoEdgesOfFreshNode | build-server/build/build_graph.py:28-32 | a node that does not exist yet has no edges |
| BuildGraph.NewNodeKeepsEdges | build-server/build/build_graph.py:28-32 | adding a node without edges keeps every edge between a file and a task |
| BuildGraph.RekindKeepsEdges | build-server/build/build_graph.py:90-98 | a task node given other fields keeps every edge between a file and a task |
| BuildGraph.RecachedStep | build-server/build/build_graph.py:172-173 | recording one more output's cache is one more node update |
| BuildGraph.RecachedKeepsNames | build-server/build/build_graph.py:172-173 | changing build caches never changes a filename |
| BuildGraph.RanTaskIsValid | build-server/build/build_graph.py:162-175 | after `run_task` records fresh hashes for the outputs, and every output exists, `is_output_invalid` is false while the disk stays as it is; so a second build does not run the task again (also lines 108-114) |
| BuildGraph.DisconnectedFromMeaning | build-server/build/build_graph.py:178-179 | the first `remove_node` loop takes the node out of each input's outputs and the inputs out of the node's inputs, and changes nothing else |
| BuildGraph.DisconnectedToMeaning | build-server/build/build_graph.py:181-182 | the second `remove_node` loop takes the node out of each output's inputs and the outputs out of the node's outputs, and changes nothing else |
| BuildGraph.FunctionTaskValidIff | build-server/build/build_graph.py:104-106 | a task is valid exactly when every input file exists; a task left with no inputs is valid, because `all([])` is true (also lines 58-60) |
| BuildGraph.MergeStep | build-server/build/build_graph.py:195-197 | merging one more node's cache over the others keeps the merge relation |
| BuildGraph.MergeOfConsistent | build-server/build/build_graph.py:193-197 | when the file nodes' caches agree on a shared key, the merged dict holds their common hash, whatever the iteration order |
| BuildGraph.ReloadedKeepsNames | build-server/build/build_graph.py:209-211 | reloading never changes a filename, adds a node or changes a node's kind |
| BuildGraph.ReloadedOutput | build-server/build/build_graph.py:209-211 | an output made by exactly one task gets the saved entries for that task's inputs, and an output no task makes keeps its cache |
| BuildGraph.KeptRestores | build-server/build/build_graph.py:67-70 | an output whose cache names only its task's inputs, with an entry for each input the saved dict has, gets back exactly its own cache (also lines 209-211) |
| BuildGraph.BuildGraph.constructor | build-server/build/build_graph.py:128-134 | a new graph has no files and no tasks, with the given root and output directory |
| BuildGraph.BuildGraph.File | build-server/build/build_graph.py:136-142 | `file(name)` returns the node for `join(root, name)`, creating it on first use; asking again returns the same node and changes nothing |
| BuildGraph.BuildGraph.AddTask | build-server/build/build_graph.py:144-146 | `add_task` appends the task to `tasks` and changes nothing else |
| BuildGraph.BuildGraph.AsFileNode | build-server/build/build_graph.py:148-151 | a file node is returned as it is, and a path goes through `file` |
| BuildGraph.BuildGraph.AsOutputNode | build-server/build/build_graph.py:153-160 | the output node's filename mirrors the source under the output directory, dropping the first directory component, or the path error `relpath` and `join` raise |
| BuildGraph.BuildGraph.Connect | build-server/build/build_graph.py:10-12 | b joins a's `edges_out` and a joins b's `edges_in`; the graph stays valid |
| BuildGraph.BuildGraph.Disconnect | build-server/build/build_graph.py:15-17 | an existing edge is removed both ways; with no such edge, `set.remove` raises KeyError and nothing changes |
| BuildGraph.BuildGraph.NewTask | build-server/build/build_graph.py:91-98 | a new task node with an edge from every input and to every output, as WiredMeaning describes |
| BuildGraph.BuildGraph.ConnectFrom | build-server/build/build_graph.py:94-95 | the input loop's new edge maps are ConnectedFrom of the old ones |
| BuildGraph.BuildGraph.ConnectTo | build-server/build/build_graph.py:97-98 | the output loop's new edge maps are ConnectedTo of the old ones |
| BuildGraph.BuildGraph.SetTaskKind | build-server/build/build_graph.py:90-92 | setting a task's own fields changes only that node's kind |
| BuildGraph.BuildGraph.CacheBuild | build-server/build/build_graph.py:62-65 | `cache_build` replaces the output's cache by the fresh hash of every source that exists |
| BuildGraph.BuildGraph.HashSources | build-server/build/build_graph.py:63-65 | the loop gives FreshCache of the sources' filenames |
| BuildGraph.BuildGraph.LoadCache | build-server/build/build_graph.py:67-70 | the node's `load_build_cache` replaces its cache by the saved entries for its sources |
| BuildGraph.BuildGraph.KeepSources | build-server/build/build_graph.py:68-70 | the loop gives KeptCache of the sources' filenames |
| BuildGraph.BuildGraph.IsOutputInvalid | build-server/build/build_graph.py:108-114 | the loop over `edges_out` gives TaskOutputInvalid |
| BuildGraph.BuildGraph.RunTask | build-server/build/build_graph.py:162-175 | a failed run returns False and changes nothing; a successful one returns True and gives each output the fresh hashes of the task's inputs |
| BuildGraph.BuildGraph.RemoveNode | build-server/build/build_graph.py:177-187 | every edge of the node is removed both ways; then the node leaves `tasks` (ValueError when absent) or `file_map` (KeyError when absent) |
| BuildGraph.BuildGraph.DetachInputs | build-server/build/build_graph.py:178-179 | the first loop of `remove_node` clears the node's inputs and removes it from their outputs |
| BuildGraph.BuildGraph.DetachOutputs | build-server/build/build_graph.py:181-182 | the second loop of `remove_node` clears the node's outputs and removes it from their inputs |
| BuildGraph.BuildGraph.MergeCaches | build-server/build/build_graph.py:194-197 | every file node's cache is merged into one dict, in some iteration order of `file_map` |
| BuildGraph.BuildGraph.SaveBuildCache | build-server/build/build_graph.py:193-200 | the merged dict is written with `dump` to the cache file, or the encoder's error is returned with the disk unchanged |
| BuildGraph.BuildGraph.Items | build-server/build/build_graph.py:196 | `items()` lists each key of the dict exactly once, with its value |
| BuildGraph.BuildGraph.LoadOutputs | build-server/build/build_graph.py:210-211 | every output of the task gets the saved entries for the task's inputs |
| BuildGraph.BuildGraph.LoadBuildCache | build-server/build/build_graph.py:202-211 | a missing cache file changes nothing; an undecodable or non-dict file is an error and changes nothing; otherwise each task gives its outputs the saved entries for its inputs |
| BuildGraph.BuildStep | build-server/build/build_graph.py:260-262 | one task of the build loop adds one entry to `ran`, which is true exactly when the task's outputs are invalid in the current state |
| BuildGraph.BuildRuns | build-server/build/build_graph.py:260-262 | the build loop visits at most every task; with no exception it visits all of them, and an exception comes from the last task visited, which ran |
| BuildGraph.BuildRunsStop | build-server/build/build_graph.py:260-262 | an exception from a task's `run` ends the build loop: the tasks after it are not visited |
| BuildGraph.BuildRunsRan | build-server/build/build_graph.py:260-262 | the k-th task ran exactly when its outputs were invalid in the state the tasks before it left, which none of them ended by raising |
| BuildGraph.BuildRunsUpToDate | build-server/build/build_graph.py:260-262 | when every task's outputs are valid at the start, the build runs nothing and changes neither the nodes nor the files |
| BuildGraph.BuildStepValidates | build-server/build/build_graph.py:162-175 | after a task's `run` succeeded and left its outputs in place, its outputs are valid, so the same step again runs nothing |
| BuildGraph.BuildGraph.BuildTask | build-server/build/build_graph.py:261-262 | one iteration of the build loop leaves the state the build step gives: the task runs when its outputs are invalid, and `run_task` recaches on success |
| BuildGraph.BuildGraph.RunInvalidTasks | build-server/build/build_graph.py:260-262 | the loop leaves exactly the state of the build fold over `tasks`: which tasks ran, the nodes and files, and the exception that ended it |
| BuildGraph.BuildGraph.BuildCommand | build-server/build/build_graph.py:257-264 | a failed load is the load's exception with nothing changed; otherwise the nodes are the build fold's from the reloaded nodes, an exception from a task ends it with no save, and else the merged caches are dumped to the cache file or the encoder's error is returned |
| BuildPaths.Ascii | build-server/build/build_tasks.py:87 | the literal suffixes the tasks append are their ASCII bytes, one byte per character (also lines 89, 149) |
| BuildPaths.Join | build-server/build/build_graph.py:137-160 | `path.join(a, b)`: an absolute b replaces a; otherwise b is appended, with one slash added when a does not already end in one |
| BuildPaths.BaseName | build-server/build/build_tasks.py:64 | `path.basename`: the slash-free end of the path, starting right after its last slash |
| BuildPaths.DirName | build-server/build/build_tasks.py:53 | `path.dirname` is a prefix of the path that ends before the base name, followed there only by slashes, and that ends in a slash only if it is all slashes |
| BuildPaths.StripSlashes | build-server/build/build_tasks.py:53 | the trailing-slash strip inside `path.dirname` keeps a prefix that does not end in a slash and drops only slashes (also line 198) |
| BuildPaths.SplitExt | build-server/build/build_tasks.py:59 | `path.splitext` splits p into root and extension with root + ext == p, the extension being empty or one dot followed by no dot and no slash |
| BuildPaths.ChangeExt | build-server/build/build_tasks.py:58-60 | `change_ext` keeps a prefix of p and appends the new extension; what it drops is empty or one dot followed by no dot and no slash |
| BuildPaths.ChangeExtReplacesFinal | build-server/build/build_tasks.py:58-60 | `change_ext` replaces only the final extension and keeps everything before its dot |
| BuildPaths.RFindLast | build-server/build/build_tasks.py:59 | the last occurrence search used by `splitext` finds d when nothing equal follows it |
| BuildPaths.RFindBefore | build-server/build/build_tasks.py:59 | with no occurrence from d on, the last occurrence is the last one before d |
| BuildPaths.ChangeExtWithoutDot | build-server/build/build_tasks.py:58-60 | a base name without dots keeps no extension, so `change_ext` only appends the new one |
| BuildPaths.ShouldIgnore | build-server/build/build_tasks.py:63-65 | `should_ignore` is true exactly when the base name starts with a dot or ends with a tilde; an empty base name raises IndexError |
| BuildPaths.Split | build-server/build/build_graph.py:159 | `split('/')` gives at least one piece and no piece holds a slash |
| BuildPaths.SplitPrefix | build-server/build/build_graph.py:159 | a slash-free prefix is glued onto the first piece of what follows it |
| BuildPaths.SplitJoined | build-server/build/build_graph.py:159-160 | splitting a slash-joined list of slash-free pieces gives the pieces back |
| BuildPaths.Components | build-server/build/build_graph.py:159 | the components of a path are its non-empty slash-free pieces |
| BuildPaths.NonEmpty | build-server/build/build_graph.py:159 | filtering out the empty pieces keeps only components |
| BuildPaths.JoinAllComponents | build-server/build/build_graph.py:160 | `path.join(*comps)` over components is the components joined with slashes |
| BuildPaths.JoinedSnoc | build-server/build/build_graph.py:160 | joining one more component adds one slash and that component |
| BuildPaths.CommonPrefix | build-server/build/build_graph.py:159 | the common prefix of two component lists: equal up to its length, different right after it |
| BuildPaths.RelComponents | build-server/build/build_graph.py:159 | `path.relpath` as components, taken between the two normalised absolute paths, contains only components |
| BuildPaths.Normalize | build-server/build/build_graph.py:159 | `normpath`'s component loop yields components that are never `.`; an absolute path keeps no `..`, and in a relative one every `..` comes before all other components |
| BuildPaths.NormalizePlain | build-server/build/build_graph.py:159 | pieces with no `.` or `..` normalise to exactly their non-empty pieces |
| BuildPaths.NonEmptySnoc | build-server/build/build_graph.py:159 | dropping empty pieces from a list with one more piece drops them from the list, then keeps the last piece if it is not empty |
| BuildPaths.AbsComponents | build-server/build/build_graph.py:159 | `abspath` as components: only components, and for an absolute joined path none is `.` or `..` |
| BuildPaths.AbsComponentsPlain | build-server/build/build_graph.py:159 | an absolute path with no `.` or `..` piece has its slash-separated components as its `abspath` components |
| BuildPaths.AbsComponentsCancelsPardir | build-server/build/build_graph.py:159 | `x/../y` taken against `/r` gives the components `r`, `y`: a `..` cancels the component before it |
| BuildPaths.SplitExample | build-server/build/build_graph.py:159 | `/r/x/../y` splits into an empty piece, `r`, `x`, `..` and `y` |
| BuildPaths.Pardirs | build-server/build/build_graph.py:159 | n copies of `..` |
| BuildPaths.RelPath | build-server/build/build_graph.py:159 | `path.relpath` fails exactly when p is empty, as Python's ValueError; otherwise it is `.` when no component is left, and else a path that splits back into the relative components |
| BuildPaths.RelPathOfItself | build-server/build/build_graph.py:159 | a non-empty path relative to itself is `.` |
| BuildPaths.OutputMirrorsTree | build-server/build/build_graph.py:153-160 | a source below root, inside some top directory and at least one level deeper, gets its output at the remaining components joined under `out_dir` |
| BuildPaths.OutputOfTopLevelFails | build-server/build/build_graph.py:159-160 | a source directly inside a top directory under root leaves nothing for `path.join(*comps[1:])`, which raises TypeError |
| BuildPaths.OutputOfRel | build-server/build/build_graph.py:159-160 | the output name is built from the components of the relative path after the first |
| BuildPaths.RelOfSubtree | build-server/build/build_graph.py:159 | relpath of a path below start gives the components past start |
| BuildPaths.OutputNameAsWritten | build-server/build/build_graph.py:153-160 | as written, passing a node raises, because `src.filename` is read before `src` is bound |
| BuildPaths.OutputNodeOfNodeFails | build-server/build/build_graph.py:154-155 | as written, every node fails, while the intended version treats a node like its filename; on a path both versions agree |
| BuildTasks.EndsWithExtIff | build-server/build/build_tasks.py:72-73 | deciding a match from the end of the path agrees with `regex.search` of a pattern anchored by `$`, which also matches before a final newline |
| BuildTasks.Pattern | build-server/build/build_tasks.py:80 | each builder's pattern ends with its extension: a dot followed by at least three bytes (also lines 136, 145) |
| BuildTasks.FirstMatch | build-server/build/build_tasks.py:72-77 | the first builder in iteration order whose pattern matches is taken; none exactly when no pattern matches |
| BuildTasks.MatchLastByte | build-server/build/build_tasks.py:72-73 | a match lines up the pattern's last byte with the path's last byte, or with the byte before a final newline |
| BuildTasks.PatternsExclusive | build-server/build/build_tasks.py:80 | no path matches two of the three patterns (also lines 136, 145) |
| BuildTasks.PatternLastBytes | build-server/build/build_tasks.py:80 | the three patterns end in the distinct bytes x, g and r (also lines 136, 145) |
| BuildTasks.FirstMatchAnyOrder | build-server/build/build_tasks.py:14 | the unspecified iteration order of `BUILD_TASKS` does not matter: in every order the builder chosen is the one whose pattern matches (also lines 72-77) |
| BuildTasks.NewFunctionTask | build-server/build/build_tasks.py:21-26 | a function task takes its output from `as_output_node(output_map_fn(i.filename))` of its first input and has an edge from every input; with no inputs `list(srcs)[0]` raises IndexError and nothing changes |
| BuildTasks.WireFunctionTask | build-server/build/build_tasks.py:21-26 | the new task node is a fresh function task whose `edges_in` are exactly the given inputs and whose `edges_out` is exactly its one output; `file_map` and `tasks` are untouched |
| BuildTasks.OutputOrDefault | build-server/build/build_tasks.py:86-87 | a given destination is kept; otherwise the output node is made from the source's name with the new extension, or the path error is returned (also lines 148-149) |
| BuildTasks.NewMeshTask | build-server/build/build_tasks.py:85-96 | the mesh task's inputs are the mesh and its `.rwsettings` file, and its single output is the destination or the mesh's name with `.mesh-mp` |
| BuildTasks.WireMeshTask | build-server/build/build_tasks.py:89-96 | the settings node is made and the task is wired to both inputs and the one output |
| BuildTasks.PreviousShaders | build-server/build/build_tasks.py:191-193 | the shaders being disconnected are none exactly when none are set |
| BuildTasks.UpdateDependencies | build-server/build/build_tasks.py:190-209 | disconnects the previous shaders if set, reads the metadata file and connects the two files it names, relative to its directory; a missing edge raises KeyError, a missing file IOError and bad metadata the parser's error |
| BuildTasks.DetachShaders | build-server/build/build_tasks.py:191-193 | when shaders are set, both are removed from the task's inputs, or KeyError is raised when an edge is missing; on KeyError the task's outputs are unchanged and its inputs have lost exactly the vertex shader when that edge existed |
| BuildTasks.AttachShaders | build-server/build/build_tasks.py:198-209 | the two named files become the task's shaders and are added to its inputs |
| BuildTasks.ShaderNodes | build-server/build/build_tasks.py:200-203 | `as_file_node` of the two names joined to the metadata's directory |
| BuildTasks.WireShaders | build-server/build/build_tasks.py:205-209 | the task records the two shaders and both are connected to it |
| BuildTasks.NewShaderTask | build-server/build/build_tasks.py:147-158 | the shader task's output is the destination or the metadata's name with `.rwshader-mp`; its inputs are the metadata and the two shaders; a failure in `_update_dependencies` leaves a half-built task in the graph without listing it |
| BuildTasks.WireShaderTask | build-server/build/build_tasks.py:151-158 | the task is wired to the metadata and the output, and then `_update_dependencies` runs |
| BuildTasks.MakeTask | build-server/build/build_tasks.py:19-45 | the registry's constructor, called as `fn(bld, [i], [])`, makes a new task of that builder's kind with i among its inputs (also line 75) |
| BuildTasks.BuildFile | build-server/build/build_tasks.py:68-77 | an ignored path adds nothing; otherwise the first matching builder makes a task from `as_file_node(path)` and it is appended to `tasks`; with no match nothing changes |
| BuildTasks.CopyPngRun | build-server/build/build_tasks.py:32-35 | `copy_png` copies some input's contents over some output; with no input or output it raises IndexError, and with a missing input IOError (also lines 137-142) |
| BuildTasks.ShaderRun | build-server/build/build_tasks.py:168-188 | `run` first rewires the dependencies; an unreadable shader returns False without writing; otherwise the destination gets what the assembler makes of the metadata and both shaders |
| CacheFormat.CacheOfValue | build-server/build/build_graph.py:207-211 | the model reads a loaded value as a build cache exactly when it is a dict of byte strings to byte strings, and as no cache otherwise |
| CacheFormat.PairsCacheKeys | build-server/build/build_graph.py:207 | the dict built from decoded pairs has every pair's key, and each of its keys comes from some pair with that value |
| CacheFormat.PairsCacheOfItems | build-server/build/build_graph.py:196-207 | building a dict from the items of a cache gives back that cache |
| CacheFormat.StrPairsEncodable | build-server/build/build_graph.py:200 | pairs of byte strings hold no float and no container key, and decode to themselves |
| CacheFormat.CacheRoundTrip | build-server/build/build_graph.py:193-211 | the cache file round-trips: a cache written with `dump` is read back by `load` as the same dict, and so as the same cache |
| Sequences.FirstIndex | build-server/build/build_graph.py:185 | the position of the first occurrence of x |
| Sequences.EraseFirst | build-server/build/build_graph.py:185 | `list.remove(x)` removes one element |
| Sequences.EraseFirstMeaning | build-server/build/build_graph.py:185 | in a list without duplicates, removing x removes x and keeps every other element |
| Sequences.EraseFirstKeeps | build-server/build/build_graph.py:185 | removal keeps only elements that were present |
| Sequences.EraseFirstCount | build-server/build/build_graph.py:185 | removal takes exactly one x out of the multiset of elements |
| IncrementalGraph.Dfs | build-server/build/incremental_graph.py:6-15 | `_run_dfs(n)` with a bound on nested calls: a finished walk lists n first |
| IncrementalGraph.DfsEach | build-server/build/incremental_graph.py:12-13 | the walks from each child, concatenated, list at least one node per child |
| IncrementalGraph.DfsEachAppend | build-server/build/incremental_graph.py:12-13 | walking from children a + b is walking from a, then from b |
| IncrementalGraph.DfsEachMember | build-server/build/incremental_graph.py:12-13 | when the walk over the children finishes, each child's walk finishes and everything it lists is listed |
| IncrementalGraph.DfsSound | build-server/build/incremental_graph.py:6-15 | everything the walk from n lists is reachable from n |
| IncrementalGraph.DfsEachSound | build-server/build/incremental_graph.py:12-13 | everything the walk over the children lists is reachable from one of them |
| IncrementalGraph.DfsComplete | build-server/build/incremental_graph.py:6-15 | a finished walk lists the end of every path from its root |
| IncrementalGraph.DfsListsReachable | build-server/build/incremental_graph.py:6-15 | `_run_dfs` lists its root first, and a node is listed exactly when it is reachable from the root |
| IncrementalGraph.DfsTerminates | build-server/build/incremental_graph.py:6-15 | on a graph without cycles the walk finishes once the recursion limit exceeds the root's rank |
| IncrementalGraph.DfsEachTerminates | build-server/build/incremental_graph.py:12-13 | the walks over the children finish when the limit exceeds every child's rank |
| IncrementalGraph.DfsAlongPath | build-server/build/incremental_graph.py:6-15 | a walk that finishes from the start of a path finishes from its end with that much less depth |
| IncrementalGraph.CycleDiverges | build-server/build/incremental_graph.py:6-15 | from a node on a cycle the walk never finishes, whatever the recursion limit, as Python's RuntimeError says |
| IncrementalGraph.DiamondBranches | build-server/build/incremental_graph.py:6-15 | in a diamond of two tasks over one output, the walk from each task lists the task and then the file |
| IncrementalGraph.DiamondListsTwice | build-server/build/incremental_graph.py:6-15 | with no visited set, the walk over the diamond lists the shared file twice, once per path, in either branch order |
| IncrementalGraph.TasksOf | build-server/build/incremental_graph.py:19 | `filter(lambda n: n.is_task, ...)` keeps exactly the task nodes |
| IncrementalGraph.TasksOfAppend | build-server/build/incremental_graph.py:19 | filtering keeps the order: filtering a + b is filtering a, then b |
| IncrementalGraph.ReachedTasksMeaning | build-server/build/incremental_graph.py:18-19 | `_tasks_from(root)` lists exactly the task nodes reachable from root |
| IncrementalGraph.RunDfs | build-server/build/incremental_graph.py:6-15 | the recursive method appending to acc returns acc followed by Dfs |
| IncrementalGraph.RunEach | build-server/build/incremental_graph.py:12-13 | the loop over `edges_out` returns acc followed by DfsEach |
| IncrementalGraph.TasksFrom | build-server/build/incremental_graph.py:18-19 | `_tasks_from` returns ReachedTasks |
| IncrementalGraph.InputReachesTask | build-server/build/incremental_graph.py:18-23 | a task is among the tasks reached from each of its inputs, so a change to any input reruns the task |
| IncrementalGraph.FileDidChange | build-server/build/incremental_graph.py:22-23 | `_file_did_change` gives the tasks reachable from the file's node and changes nothing |
| IncrementalGraph.FileDidAppear | build-server/build/incremental_graph.py:26-31 | `build_file`, then the tasks reachable from the path's node, or none when the path is still not tracked; for an absolute path this includes the task just made |
| IncrementalGraph.UnlinkOutputs | build-server/build/incremental_graph.py:42-47 | every existing file among the node's outputs is deleted, and nothing else |
| IncrementalGraph.DropStep | build-server/build/incremental_graph.py:38-49 | removing one more invalid node keeps the relation between the start state, the removed set and the current state |
| IncrementalGraph.EdgesDropStep | build-server/build/incremental_graph.py:49 | after one more removal every edge touching a removed node is gone and every other edge is kept |
| IncrementalGraph.FileMapDropStep | build-server/build/incremental_graph.py:49 | after one more removal `file_map` has lost exactly the removed file nodes' names |
| IncrementalGraph.TasksDropStep | build-server/build/incremental_graph.py:49 | after one more removal `tasks` has lost exactly the removed task nodes |
| IncrementalGraph.FilesDropStep | build-server/build/incremental_graph.py:42-47 | after one more removal the disk has lost exactly the existing outputs of the removed nodes |
| IncrementalGraph.OutputNameStep | build-server/build/incremental_graph.py:42-47 | the output filenames of the removed set grow by the new node's remaining outputs, up to names already gone |
| IncrementalGraph.ReachedExists | build-server/build/incremental_graph.py:36 | a node reachable from an existing node exists |
| IncrementalGraph.DropNode | build-server/build/incremental_graph.py:42-49 | for an invalid node, its existing output files are deleted and it is removed; `remove_node` raises KeyError or ValueError, and for a node not removed before only when `tasks` or `file_map` lacks it |
| IncrementalGraph.RemovalMeaning | build-server/build/incremental_graph.py:38-49 | a node is removed exactly when, at one of its turns in the walk, it is invalid in the graph the earlier turns left; a reachable node that stays valid keeps its place and its output files |
| IncrementalGraph.ValidInDropped | build-server/build/incremental_graph.py:39 | in a state reached by removing a set of nodes, `is_valid` is judged on the original graph with those nodes and their output files taken away |
| IncrementalGraph.Visit | build-server/build/incremental_graph.py:38-49 | one turn of the loop: a node invalid now is dropped, a valid one is skipped, and a failing removal raises KeyError or ValueError |
| IncrementalGraph.RemoveInvalid | build-server/build/incremental_graph.py:38-49 | the loop removes exactly the nodes the removal rule names, or stops at the first turn whose removal raises, with exactly the earlier turns' nodes removed |
| IncrementalGraph.FileDidDisappear | build-server/build/incremental_graph.py:34-51 | in the walk's order, every node invalid at its turn loses its existing output files and is removed, and no other node is: the removed set is exactly the removal rule's for the walk order; only nodes reachable from the vanished file are removed, that file's own node among them; the result is [], or the KeyError/ValueError of a removal at a named turn; too deep a walk changes nothing |
| IncrementalGraph.TasksFromFsChange | build-server/build/incremental_graph.py:54-65 | by whether the path exists and whether the graph tracks it: a changed file gives the tasks reachable from it; an appeared file gives, after `build_file`, exactly the tasks reachable from its node, or []; a vanished file removes exactly the nodes of the removal rule and gives []; otherwise nothing changes and the result is [] |
| StableVectors.SliceIndex | include/rosewood/data-structures/stable_vector.h:200-203 | `slice_index` is at most the index |
| StableVectors.ElementIndex | include/rosewood/data-structures/stable_vector.h:205-208 | `element_index` is an offset below the slice size |
| StableVectors.SlotsIn | include/rosewood/data-structures/stable_vector.h:95 | c slices hold at least one slice's worth of elements when c > 0 |
| StableVectors.SliceLayoutSum | include/rosewood/data-structures/stable_vector.h:200-208 | the slices before index's slice plus its offset account for every element before it |
| StableVectors.SliceLayoutIsDivision | include/rosewood/data-structures/stable_vector.h:200-208 | the slice is index / slice_size and the offset index % slice_size |
| StableVectors.SlotsInIsProduct | include/rosewood/data-structures/stable_vector.h:95 | c slices hold slice_size * c elements, the capacity formula |
| StableVectors.SliceInRange | include/rosewood/data-structures/stable_vector.h:122-130 | an index below the capacity of c slices lies in one of them |
| StableVectors.DistinctPositions | include/rosewood/data-structures/stable_vector.h:122-130 | distinct indices live at distinct (slice, offset) positions, so writing one element changes no other |
| StableVectors.SlotsThroughSlice | include/rosewood/data-structures/stable_vector.h:141 | the slices up to the one holding n - 1 hold n elements, and one fewer do not |
| StableVectors.SlotsInMonotone | include/rosewood/data-structures/stable_vector.h:95 | more slices hold more elements |
| StableVectors.SliceIndexBelow | include/rosewood/data-structures/stable_vector.h:200-203 | with slice size 1 index i lives in slice i; with a larger size a positive index lives in an earlier slice |
| StableVectors.RequiredSlicesMeaning | include/rosewood/data-structures/stable_vector.h:141-169 | for a positive size the required slices are the fewest that hold it; for size 0 `new_size - 1` wraps around, leaving none with slice size 1 and more than any positive size needs otherwise |
| StableVectors.RequiredSlicesPositive | include/rosewood/data-structures/stable_vector.h:141 | for a positive size, the required slices are slice_index(n - 1) + 1, the fewest that hold n elements |
| StableVectors.RequiredSlicesAtZero | include/rosewood/data-structures/stable_vector.h:141 | for size 0 the wrapped `slice_index(SIZE_MAX) + 1` is no smaller than the count for any positive size, and is 0 with slice size 1 |
| StableVectors.SliceIndexMonotone | include/rosewood/data-structures/stable_vector.h:200-203 | a larger index lives in the same or a later slice |
| StableVectors.StableVector.CapacityIsProduct | include/rosewood/data-structures/stable_vector.h:94-95 | `capacity()` is slice_size times the number of slices |
| StableVectors.StableVector.Elements | include/rosewood/data-structures/stable_vector.h:122-130 | the vector's contents: element i read through the slice layout, one per index below `size()` |
| StableVectors.StableVector.Default | include/rosewood/data-structures/stable_vector.h:34 | default arguments: slices of 32 elements aligned to 8, no slices and size 0 (also lines 77-79) |
| StableVectors.StableVector.constructor | include/rosewood/data-structures/stable_vector.h:77-79 | a new vector has size 0, no slices and capacity 0, with the given slice size and alignment |
| StableVectors.StableVector.SetSliceSize | include/rosewood/data-structures/stable_vector.h:97-103 | `set_slice_size` throws exactly when the capacity is not 0; otherwise only the slice size changes |
| StableVectors.StableVector.SetSliceDataAlignment | include/rosewood/data-structures/stable_vector.h:105-108 | `set_slice_data_alignment` records the alignment for slices allocated later |
| StableVectors.StableVector.Get | include/rosewood/data-structures/stable_vector.h:127-130 | the const `operator[]` reads element index of the contents |
| StableVectors.StableVector.Put | include/rosewood/data-structures/stable_vector.h:122-125 | writing through `operator[]` changes element index and no other entry of any slice, and moves no slice |
| StableVectors.StableVector.Grow | include/rosewood/data-structures/stable_vector.h:143-150 | the growing loop appends fresh slices until there are `required`, and keeps the old slices |
| StableVectors.StableVector.Shrink | include/rosewood/data-structures/stable_vector.h:154-158 | the shrinking loop frees trailing slices until there are no more than `required` |
| StableVectors.StableVector.Resize | include/rosewood/data-structures/stable_vector.h:139-161 | `resize(n)` sets the size to n; growing adds fresh slices and keeps every old element where it was; shrinking frees only trailing slices and keeps the first n elements |
| StableVectors.StableVector.ResizeUp | include/rosewood/data-structures/stable_vector.h:142-151 | growing keeps the old slices and elements; new indices in slices already allocated read those slices' old entries |
| StableVectors.StableVector.ResizeDown | include/rosewood/data-structures/stable_vector.h:153-160 | shrinking keeps a prefix of the slices and the first n elements |
| StableVectors.StableVector.ResizeFill | include/rosewood/data-structures/stable_vector.h:163-178 | `resize(n, fill)` shrinks through `resize(n)`; growing appends slices filled with the value, while entries between the old and new size inside slices already allocated keep their old contents |
| StableVectors.StableVector.ResizeFillUp | include/rosewood/data-structures/stable_vector.h:168-177 | the growing branch: new slices hold only the fill value and old slices keep their contents |
| StableVectors.StableVector.GrowFilled | include/rosewood/data-structures/stable_vector.h:170-175 | the loop appends filled slices until there are `required` |
| StableVectors.StableVector.NewFilledSlice | include/rosewood/data-structures/stable_vector.h:171-174 | a fresh slice of slice_size entries, each the fill value |
| StableVectors.StableVector.EnsureValidIndex | include/rosewood/data-structures/stable_vector.h:132-137 | an index at or past the size grows the vector to index + 1 and keeps the old elements; a smaller one changes nothing |
| StableVectors.StableVector.PushBack | include/rosewood/data-structures/stable_vector.h:116-120 | `push_back(v)` appends v to the contents and keeps every slice already allocated where it was |
| StableVectors.StableVector.GrownElements | include/rosewood/data-structures/stable_vector.h:139-151 | after growth, an element in a kept slice reads that slice's entry |
| StableVectors.StableVector.KeptElements | include/rosewood/data-structures/stable_vector.h:139-151 | after growth, the elements below the old size are the old elements |
| StableVectors.StableVector.FilledElements | include/rosewood/data-structures/stable_vector.h:170-175 | entries in appended filled slices read as the fill value |
| StableVectors.StableVector.ShrunkElements | include/rosewood/data-structures/stable_vector.h:153-160 | after shrinking, every element still lies in a kept slice and reads its old entry |
| StableVectors.Collect | include/rosewood/data-structures/stable_vector.h:180-198 | a range-for from `begin()` to `end()` visits exactly the contents, in index order (also lines 223-252) |
| StableVectors.PushMany | tests/stable_vector_tests.cc:45-70 | pushing count values grows the size by count, keeps the old slices and elements |
| StableVectors.SmallSliceSizeKeepsAddress | tests/stable_vector_tests.cc:63-77 | with slices of 3, the slice holding element 2 is the same array after ten more pushes and after `resize(3)` |
| StableVectors.ResizeGrowFill | tests/stable_vector_tests.cc:52-61 | `resize(3, 23)` on a new vector gives [23, 23, 23] |
| StableVectors.ResizeFillKeepsOldEntries | include/rosewood/data-structures/stable_vector.h:168-177 | after [7, 8], `resize(1)` and then `resize(3, 23)`, element 1 is still 8, not the fill value |
| StableVectors.ResizeZero | include/rosewood/data-structures/stable_vector.h:141-158 | `resize(0)` frees no slice when slices hold several elements, because `slice_index(0 - 1)` wraps; with one-element slices the count wraps to 0 and every slice is freed |
| Entities.SameEntityIsEquality | engine/core/include/rosewood/core/entity.h:43-49 | `==` on entities holds exactly when owner and id are equal, and `!=` is its negation |
| Entities.FreeIdsCount | engine/core/src/entity.cc:49-51 | a free list of distinct ids between 1 and max has at most max entries, and max minus its length ids in 1..max are off it |
| Entities.LiveIdsMeaning | engine/core/src/entity.cc:44-47 | an id from 1 up is among the live ids exactly when `is_valid` accepts it (id at most `_max_eid` and not on the free list) |
| Entities.CountIsLiveIds | engine/core/src/entity.cc:49-51 | with a well-formed free list, `entity_count()` = `_max_eid` − free-list length does not wrap and equals the number of valid ids 1..max |
| Entities.EntityManager.IsValid | engine/core/src/entity.cc:44-47 | from id 1 up, `is_valid` accepts exactly the live ids: those at most `_max_eid` and not on the free list |
| Entities.EntityManager.EntityCount | engine/core/src/entity.cc:49-51 | with a well-formed free list, `entity_count()` is the number of live ids |
| Entities.CreateKeepsWellFormed | engine/core/src/entity.cc:16-28 | creating keeps the free list distinct and within 1..max, and the id handed out is valid afterwards |
| Entities.CreateAddsOneId | engine/core/src/entity.cc:16-28 | unless the counter wraps, the new id is at least 1, was not valid before, and is the only id that becomes valid |
| Entities.CreateCounts | engine/core/src/entity.cc:16-28 | unless the counter wraps, `entity_count()` rises by one |
| Entities.DestroyKeepsWellFormed | engine/core/src/entity.cc:36-41 | destroying a valid id other than 0 keeps the free list well formed and makes the id invalid |
| Entities.DestroyRemovesOneId | engine/core/src/entity.cc:36-41 | destroying a valid id other than 0 removes exactly that id from the valid ones |
| Entities.DestroyCounts | engine/core/src/entity.cc:36-41 | destroying a valid id other than 0 lowers `entity_count()` by one |
| Entities.ClearedTable | engine/core/src/entity.cc:31-34 | after the `remove_dynamic` loop every array has the entity's slot cleared, and the arrays keep their number |
| Entities.DroppedTable | engine/core/src/entity.cc:31-34 | after that loop each array has destroyed exactly the entity's component, if it held one, once |
| Entities.Blank | engine/core/include/rosewood/core/entity.h:194-198 | the arrays a resize appends hold nothing |
| Entities.ExtendsKeepsComponents | engine/core/include/rosewood/core/component.h:30-33 | registering further type codes changes no entity's components |
| Entities.Gather | engine/core/include/rosewood/core/entity.h:187-188 | the `component<T>(e)` results for the listed types, one per type and in order |
| Entities.AllNotNull | engine/core/include/rosewood/core/entity.h:169-180 | `all_not_null` of at least one pointer is true exactly when none of them is null |
| Entities.Values | engine/core/include/rosewood/core/entity.h:188 | the components passed to `func` are those behind the non-null pointers, in order |
| Entities.VisitsBelowSound | engine/core/include/rosewood/core/entity.h:182-191 | every call `for_components` makes for ids below n goes to a valid entity below n and passes its components of the listed types, in order |
| Entities.VisitsBelowAscending | engine/core/include/rosewood/core/entity.h:184 | the calls go to strictly ascending ids |
| Entities.VisitsBelowComplete | engine/core/include/rosewood/core/entity.h:182-191 | every valid id below n having all the listed components gets a call |
| Entities.VisitedIds | engine/core/include/rosewood/core/entity.h:185-188 | the ids the calls go to, one per call and in call order |
| Entities.ExtendsKeepsGather | engine/core/include/rosewood/core/entity.h:187-188 | registering further type codes changes no `component<T>(e)` result |
| Entities.NextCounter | engine/core/include/rosewood/core/entity.h:184 | `++i` on the 32-bit unsigned `EntityId` counter adds one, and wraps the largest id to 0 |
| Entities.CounterCounts | engine/core/include/rosewood/core/entity.h:184 | for fewer than 2^32 rounds from 0 the counter equals the number of rounds |
| Entities.AsWrittenLoopNeverExits | engine/core/include/rosewood/core/entity.h:184 | when `_max_eid` is the largest id, the counter passes `i <= _max_eid` at every value and returns to 0 one round later, so the loop never ends |
| Entities.MaxEidCanWrap | engine/core/src/entity.cc:36-46 | on a fresh manager id 0 is valid, and destroying it wraps `_max_eid` to the largest id |
| Entities.RegistersExtends | engine/core/include/rosewood/core/component.h:30-33 | registering a type with the arrays unchanged leaves every entity's components as they are |
| Entities.AddedMeaning | engine/core/include/rosewood/core/entity.h:121-128 | after `add_component<T>(e)` the entity has it; no higher id has a T (the array ends just after e); lower ids keep theirs; other types are unchanged |
| Entities.ClearedAt | engine/core/include/rosewood/core/component_array.h:41-47 | `remove<T>(eid)` clears that slot of T's array only; the arrays keep their number |
| Entities.DroppedAt | engine/core/include/rosewood/core/component_array.h:41-47 | that removal destroys the component of the slot, if one was there, once, in T's array only |
| Entities.RemovedMeaning | engine/core/include/rosewood/core/entity.h:152-161 | after `remove_component<T>(e)` the entity has no T, and every other (type, id) pair keeps its component |
| Entities.ClearedAtAbsent | engine/core/include/rosewood/core/component_array.h:41-47 | removing from a slot with no component changes nothing and destroys nothing; a second `remove` is a no-op |
| Entities.ComponentStore.constructor | engine/core/include/rosewood/core/entity.h:88 | the manager's array list starts empty |
| Entities.ComponentStore.Grow | include/rosewood/data-structures/stable_vector.h:139-161 | `_components.resize(n)` when growing: empty arrays are appended up to n, the old arrays untouched |
| Entities.ComponentStore.AppendEmpty | include/rosewood/data-structures/stable_vector.h:110-120 | one empty array is added at the end; the others are untouched |
| Entities.ComponentStore.CreateIn | engine/core/include/rosewood/core/component_array.h:23-34 | `create(eid, ...)` leaves the array with exactly eid + 1 slots, the component at eid, the lower slots kept; other arrays and the destroyed lists unchanged |
| Entities.ComponentStore.RemoveIn | engine/core/include/rosewood/core/component_array.h:41-47 | `remove(eid)` on one array: the table and destroyed lists become ClearedAt and DroppedAt of the old ones |
| Entities.ComponentStore.RemoveSlot | engine/core/include/rosewood/core/component_array.h:41-47 | `remove(eid)` clears the slot and destroys an occupied one's component; other arrays untouched |
| Entities.ComponentStore.RemoveFrom | engine/core/src/component_array.cc:10-27 | `remove_dynamic(eid, code)`: unchanged past the end or on a clear flag; otherwise the flag is cleared and the component destroyed once; other arrays untouched |
| Entities.ComponentStore.RemoveAll | engine/core/src/entity.cc:31-34 | the `destroy_entity` loop over every array in code order gives ClearedTable and DroppedTable of the old state |
| Entities.EntityManager.constructor | engine/core/src/entity.cc:14 | a new manager has `_max_eid` 0, an empty free list and no arrays; its id state is well formed |
| Entities.EntityManager.CreateEntity | engine/core/src/entity.cc:16-28 | returns an entity owned by this manager with NewId (++max on an empty free list, else the last freed id) and the allocator moves to AfterCreate |
| Entities.EntityManager.DestroyEntity | engine/core/src/entity.cc:30-42 | every array has the entity's slot cleared and its components destroyed once, then the allocator moves to AfterDestroy |
| Entities.EntityManager.ReleaseId | engine/core/src/entity.cc:36-41 | decrements `_max_eid` when the id is the maximum, else pushes the id on the free list; the arrays are unchanged |
| Entities.EntityManager.Component | engine/core/include/rosewood/core/entity.h:141-150 | the type is registered, and the result is the entity's component of that type, or null when the code has no array or the id is past its end |
| Entities.EntityManager.RemoveComponent | engine/core/include/rosewood/core/entity.h:152-161 | afterwards the entity has no component of the type and nothing else changed; a present one was destroyed once, an absent one left nothing destroyed |
| Entities.EntityManager.RemovePresent | engine/core/include/rosewood/core/entity.h:158-160 | the removal once the component is known to be present |
| Entities.EntityManager.EnsureComponentIndexAvailable | engine/core/include/rosewood/core/entity.h:193-198 | the array list grows to index + 1 when it is not longer than index, with empty new arrays; otherwise nothing changes |
| Entities.EntityManager.AddComponent | engine/core/include/rosewood/core/entity.h:121-128 | returns the new component; the state moves as in AddedMeaning; nothing is destroyed |
| Entities.EntityManager.AddWithCode | engine/core/include/rosewood/core/entity.h:124-127 | `add_component` once the code is known: the same result against the pre-registration state |
| Entities.EntityManager.RegisterType | engine/core/include/rosewood/core/component.h:30-33 | a type's code is the one it had, or else the next counter value, beyond every existing array; no array changes |
| Entities.EntityManager.PlaceComponent | engine/core/include/rosewood/core/entity.h:124-127 | the arrays are extended to cover the code and the array for it gets the component at eid |
| Entities.EntityManager.CreateAt | engine/core/include/rosewood/core/entity.h:126-127 | the array with the code ends just after eid, holds the component there, keeps its lower slots; other arrays unchanged |
| Entities.EntityManager.GatherComponents | engine/core/include/rosewood/core/entity.h:187 | `component<T>(e)` for each listed type gives Gather of the state before; no component changes |
| Entities.EntityManager.ComponentSince | engine/core/include/rosewood/core/entity.h:141-150 | `component<T>(e)` after further registrations still gives the entity's component in the earlier state |
| Entities.EntityManager.ForComponents | engine/core/include/rosewood/core/entity.h:182-191 | the calls made are VisitsBelow(max + 1): valid entities having every listed component, ascending ids, their components in order |
| Entities.EntityManager.VisitOne | engine/core/include/rosewood/core/entity.h:185-189 | one round: a call for e exactly when it is valid and has every listed component |
| Entities.EntityManager.CreateEntityWith | engine/core/include/rosewood/core/entity.h:114-139 | `create_entity<Ts...>()` returns the new entity, which has a component of every listed type (under a repeated type, the last one) |
| Entities.EntityManager.AddOneMore | engine/core/include/rosewood/core/entity.h:135-139 | one round of `add_components` keeps every earlier listed component that is the last of its type, and adds the k-th |
| Entities.AddedKeepsLast | engine/core/include/rosewood/core/entity.h:135-139 | after the k-th add, every entry that is the last of its type below k + 1 holds its value |
| EntityScenarios.CreateThenDestroy | tests/entity_manager_tests.cc:16-27 | on a fresh manager the first entity is 1, valid and counted once; after destroying it, it is invalid and the count is 0 |
| EntityScenarios.ReuseId | tests/entity_manager_tests.cc:29-38 | create 1 and 2, destroy 1, and the next entity created is 1 again |
| EntityScenarios.AutoAddComponents | tests/entity_manager_tests.cc:87-92 | `create_entity<T1, T2>()` gives the entity a component of each type |
| EntityScenarios.RemoveComponentOnce | tests/entity_manager_tests.cc:94-107 | after add then remove the component is gone and was destroyed exactly once; removing again changes nothing |
| EntityScenarios.DestroyDropsComponents | tests/entity_manager_tests.cc:109-118 | destroying an entity destroys its component and leaves it with none of any registered type |
| ComponentArrays.Stride | engine/core/include/rosewood/core/component_array.h:70-78 | the stride is a multiple of the alignment, at least the size and less than size + alignment |
| ComponentArrays.StrideIsLeast | engine/core/include/rosewood/core/component_array.h:70-78 | no multiple of the alignment lies between the size and the stride, so the stride is the least one |
| ComponentArrays.ComponentRegistry.constructor | engine/core/src/component_array.cc:5-8 | the static layout tables start empty |
| ComponentArrays.ComponentRegistry.RegisterComponent | engine/core/include/rosewood/core/component_array.h:150-165 | the tables grow to cover the code; the type's entry is written only when absent, every other entry keeps its value |
| ComponentArrays.OccupiedBelowMeaning | engine/core/include/rosewood/core/component_array.h:121-125 | the occupied indices below n are exactly those below n with the flag set, strictly ascending |
| ComponentArrays.OccupiedSkip | engine/core/include/rosewood/core/component_array.h:121-125 | a run of clear slots adds no occupied index |
| ComponentArrays.ComponentArray.constructor | engine/core/include/rosewood/core/component_array.h:57 | a new array has no slots and has destroyed nothing |
| ComponentArrays.ComponentArray.Size | engine/core/include/rosewood/core/component_array.h:51-54 | `size<T>()` is the number of slots |
| ComponentArrays.ComponentArray.At | engine/core/include/rosewood/core/component_array.h:36-39 | `at(i)` is non-null exactly when the flag is set, and then it is the slot's component |
| ComponentArrays.ComponentArray.Create | engine/core/include/rosewood/core/component_array.h:23-34 | the array ends with exactly index + 1 slots and the component flagged at index; lower old slots are kept; gap slots read whatever their slice held or zero; nothing is destroyed |
| ComponentArrays.ComponentArray.WriteSlot | engine/core/include/rosewood/core/component_array.h:31-32 | writing a slot changes that slot only |
| ComponentArrays.ComponentArray.Reserve | engine/core/include/rosewood/core/component_array.h:24-29 | set-up, registration and resize to index + 1 slots with zero fill of new slices |
| ComponentArrays.ComponentArray.ResizeSlots | include/rosewood/data-structures/stable_vector.h:163-178 | `_data.resize((index + 1) * stride, 0)` in slots: growing keeps the slots and fills new slices with zero, shrinking truncates but the slices keep the old values |
| ComponentArrays.ComponentArray.ShrinkSlots | include/rosewood/data-structures/stable_vector.h:163-166 | shrinking keeps exactly the first index + 1 slots and leaves the dropped ones in the kept slices |
| ComponentArrays.ComponentArray.GrowSlots | include/rosewood/data-structures/stable_vector.h:167-178 | growing keeps every old slot and fills the new ones |
| ComponentArrays.ComponentArray.Remove | engine/core/include/rosewood/core/component_array.h:41-47 | an occupied slot is cleared and its component destroyed once; a clear slot changes nothing |
| ComponentArrays.ComponentArray.RemoveDynamic | engine/core/src/component_array.cc:10-27 | past the end or on a clear flag nothing changes; otherwise the flag is cleared and the component destroyed once |
| ComponentArrays.ComponentArray.StepToValid | engine/core/include/rosewood/core/component_array.h:121-125 | returns the first occupied index from start, or the size when none is left, skipping only clear slots |
| ComponentArrays.VisitOccupied | engine/core/include/rosewood/core/component_array.h:87-145 | iterating a view from `begin()` to `end()` visits exactly the occupied indices, ascending |
| ComponentArrays.DroppedSlotReappears | engine/core/include/rosewood/core/component_array.h:29 | create(3, a), create(1, b), create(4, c): the shrink leaves 2 slots and destroys nothing, and slot 3 reads a again afterwards |
| Events.CallsFor | include/rosewood/core/event.h:103-113 | one call per registration of a list, in order, each with the registration's handler and listener and the sender |
| Events.WithoutMeaning | include/rosewood/core/event.h:120-124 | after the erase–`remove_if` no registration of the listener is left, every other registration is kept, and nothing is added |
| Events.WithoutKeepsOrder | include/rosewood/core/event.h:120-124 | the kept registrations sit at strictly increasing positions of the original list: relative order is preserved |
| Events.WithoutIn | include/rosewood/core/event.h:119-133 | every list of a handler map loses the listener's registrations; the keys stay the same |
| Events.WithoutAbsent | include/rosewood/core/event.h:120-124 | removing a listener with no registration leaves the list unchanged |
| Events.EventManager.constructor | include/rosewood/core/event.h:55-59 | both handler maps start empty |
| Events.EventManager.AddListener | include/rosewood/core/event.h:62-79 | the registration is appended to the list for (sender, event type code), registering twice making two entries; the global map is untouched |
| Events.EventManager.AddGlobalListener | include/rosewood/core/event.h:81-97 | the registration is appended to the global list for the event type code; the sender-specific map is untouched |
| Events.EventManager.SendEvent | include/rosewood/core/event.h:99-114 | the calls are the sender-specific registrations in order, then the global ones in order, each passed the sender; `operator[]` inserts empty lists for missing keys |
| Events.EventManager.CallEach | include/rosewood/core/event.h:103-107 | the loop over a list makes CallsFor of that list |
| Events.EventManager.RemoveListener | include/rosewood/core/event.h:116-134 | every list of both maps becomes Without of the listener |
| Events.AddThenSend | include/rosewood/core/event.h:78-107 | after a registration, sending from that sender makes the earlier calls then the new one; any other (sender, type) pair gets the same list as before |
| Events.DispatchOnlyRegistered | include/rosewood/core/event.h:101-114 | every call `send_event` makes is passed that sender and comes from a registration for that sender and type, or a global one for that type |
| Events.RemovedListenerGetsNothing | include/rosewood/core/event.h:116-134 | after `remove_listener(l)` no event from any sender is handed to l |
| Events.ListenToSender | tests/event_manager_tests.cc:48-68 | a listener registered for one sender receives exactly one call with that sender and no global one; after `remove_listener` it receives nothing |
| Events.SendFirst | tests/event_manager_tests.cc:52-54 | with one registration, the first send makes exactly that call and inserts an empty global list |
| Events.RemovedOnly | tests/event_manager_tests.cc:62 | removing the only listener leaves both lists empty |
| TypeCodes.TypeCodeCounter.constructor | include/rosewood/core/event.h:24 | the shared counter starts at 0 with no type registered |
| TypeCodes.TypeCodeCounter.Register | include/rosewood/core/event.h:28-33 | the first call for a type takes the counter's value and advances it; later calls return the same code and change nothing |
| TypeCodes.TypeCodeCounter.Registered | engine/core/include/rosewood/core/component.h:30-33 | a registered type's code is returned unchanged and lies below the counter |
| TypeCodes.DistinctAndStable | include/rosewood/core/event.h:28-33 | two types registered in turn get different codes, and the first one's code is stable |
| Transforms.AddNodeKeepsLinks | src/core/transform.cc:16-21 | a new transform with no parent and no children keeps `c in p.children` ⇔ `c.parent == p` |
| Transforms.UnlinkKeepsLinks | include/rosewood/core/transform.h:181-184 | erasing t from its parent's children and dropping its parent keeps the links reciprocal |
| Transforms.AttachKeepsLinks | include/rosewood/core/transform.h:176-177 | appending a parentless child and setting its parent keeps the links reciprocal |
| Transforms.SubtreeHoldsChildren | include/rosewood/core/transform.h:188-193 | a transform's subtree holds it and each child's subtree |
| Transforms.RebuildsParentFirst | include/rosewood/core/transform.h:160-164 | only invalid transforms are rebuilt, t last and each right after its parent; a valid t rebuilds nothing |
| Transforms.TransformTree.constructor | include/rosewood/core/transform.h:140-153 | an empty forest with nothing invalid and nothing rebuilt |
| Transforms.TransformTree.AddTransform | src/core/transform.cc:16-21 | a new transform has no parent and no children, position 0, scale 1, identity rotation, and invalid matrices |
| Transforms.TransformTree.Invalidate | include/rosewood/core/transform.h:188-193 | t's whole subtree becomes invalid; nothing else changes |
| Transforms.TransformTree.InvalidateAll | include/rosewood/core/transform.h:190-192 | the subtrees of every listed child become invalid; nothing else changes |
| Transforms.TransformTree.SetLocalPosition | include/rosewood/core/transform.h:38-46 | the position is stored and t's subtree invalidated; nothing else changes |
| Transforms.TransformTree.SetLocalRotation | include/rosewood/core/transform.h:52-54 | the rotation is stored and t's subtree invalidated; nothing else changes |
| Transforms.TransformTree.SetLocalScale | include/rosewood/core/transform.h:58-60 | the scale is stored and t's subtree invalidated; nothing else changes |
| Transforms.TransformTree.RemoveFromParent | include/rosewood/core/transform.h:181-186 | the first occurrence of t is erased from its parent's children (the others keep their order), t loses its parent, and its subtree is invalidated |
| Transforms.TransformTree.Unlink | include/rosewood/core/transform.h:182-184 | the link half of `remove_from_parent`, keeping the links reciprocal |
| Transforms.TransformTree.AddChild | include/rosewood/core/transform.h:171-179 | c is detached from any previous parent, appended to t's children with t as its parent; the dirty set grows by exactly c's subtree in the tree after detaching (when c had a parent) and in the new tree; t must not lie below c |
| Transforms.TransformTree.Attach | include/rosewood/core/transform.h:176-177 | c is appended to t's children and gets t as its parent; nothing else changes |
| Transforms.TransformTree.ConstructIfInvalid | include/rosewood/core/transform.h:160-164 | the rebuilds are Rebuilds of the old state, each clearing its flag, and t is valid afterwards |
| Transforms.TransformTree.Construct | src/core/transform.cc:47-66 | the parent is rebuilt first if invalid, then t, clearing each flag |
| Transforms.ParentThenChild | include/rosewood/core/transform.h:160-193 | with 2 a child of 1, moving 1 invalidates both; reading 2 rebuilds 1 then 2; a second read rebuilds nothing |
| Variants.Lifecycle.constructor | engine/core/include/rosewood/data-structures/variant.h:96-99 | the record of constructor and destructor calls starts empty |
| Variants.Variant.Default | engine/core/include/rosewood/data-structures/variant.h:59-63 | the default variant holds the first member type, default-constructed once |
| Variants.Variant.Of | engine/core/include/rosewood/data-structures/variant.h:79-88 | constructing from a T stores T's first position in the list and the value, constructing it once |
| Variants.Variant.Has | engine/core/include/rosewood/data-structures/variant.h:102-106 | `has<T>()` holds exactly when the stored index is a position of T with no earlier T in the member list |
| Variants.Variant.EqualsValue | engine/core/include/rosewood/data-structures/variant.h:39-42 | `v == g` holds exactly when v holds a T (as `has<T>` says) and its payload equals g |
| Variants.Variant.Copy | engine/core/include/rosewood/data-structures/variant.h:65-69 | copy construction keeps the index and the payload |
| Variants.Variant.Assign | engine/core/include/rosewood/data-structures/variant.h:71-77 | assignment between two distinct variants destroys the current payload once, then copies in the other's index and payload |
| Variants.Variant.AssignChecked | engine/core/include/rosewood/data-structures/variant.h:71-77 | with a self-assignment guard: `v = v` leaves the index, the payload and the record of calls unchanged; between distinct variants it is `operator=` |
| Variants.SelfAssignedAsWritten | engine/core/include/rosewood/data-structures/variant.h:72-76 | `v = v` as written is undefined exactly when the stored member is not void (its payload is copied after its destructor ran); for a void member it adds no call |
| Variants.SelfAssignmentReadsDestroyed | engine/core/include/rosewood/data-structures/variant.h:72-76 | for a variant holding a non-void T, `v = v` as written is undefined, while the guarded assignment keeps the value and records no call |
| Variants.Variant.AssignValue | engine/core/include/rosewood/data-structures/variant.h:90-94 | `*this = Variant(t)`: a temporary is built, the old payload destroyed once, the value copied in, and the temporary destroyed |
| Variants.Variant.Destroy | engine/core/include/rosewood/data-structures/variant.h:96-99 | the destructor destroys the current payload once |
| Variants.ConstructedHolds | engine/core/include/rosewood/data-structures/variant.h:39-42 | constructed from a T: `has<T>` is true, `has<U>` false for another member, `get<T>` is the value, and `v == g` holds exactly when g equals it (also lines 101-107) |
| Variants.AssignmentDestroysOnce | tests/variant_tests.cc:60-82 | assigning a value of another type adds exactly: construct the temporary, destroy the old payload, construct the copy, destroy the temporary |
| MetaLists.MaxFrom | include/rosewood/data-structures/metaprogramming.h:100-115 | `static_max_helper` picks a position from the accumulator on |
| MetaLists.MaxIndex | include/rosewood/data-structures/metaprogramming.h:35-42 | `static_max::type` is a position of the list |
| MetaLists.MaxFromIsLastGreatest | include/rosewood/data-structures/metaprogramming.h:100-115 | the helper returns the last position from acc on with the greatest measure |
| MetaLists.MaxIsLastGreatest | include/rosewood/data-structures/metaprogramming.h:32-42 | `static_max::value` is the maximum of the measure, reached by some element, and `::type` is the last one reaching it: ties go to the later element (also lines 100-115) |
| MetaLists.Member | include/rosewood/data-structures/metaprogramming.h:61-66 | `static_member` is true exactly when the needle occurs in the (non-empty) list (also lines 117-130) |
| MetaLists.IndexOfFrom | include/rosewood/data-structures/metaprogramming.h:132-145 | the helper returns the first match counted from `position`, or the position past the end |
| MetaLists.IndexOf | include/rosewood/data-structures/metaprogramming.h:70-75 | `static_index_of` is the first occurrence's position, or the length exactly when absent |
| MetaLists.AtIndexFrom | include/rosewood/data-structures/metaprogramming.h:147-166 | the callback gets the type at n when n is in range counting from `index`, and nothing otherwise |
| MetaLists.AtIndex | include/rosewood/data-structures/metaprogramming.h:177-217 | from index 0: the n-th type when n is below the length, nothing otherwise |
| MetaLists.Destruct | include/rosewood/data-structures/metaprogramming.h:168-182 | `destruct(n, data)` destroys the n-th type once, and does nothing for void or n out of range |
| MetaLists.Construct | include/rosewood/data-structures/metaprogramming.h:184-217 | the placement constructors construct the n-th type once, and do nothing for void or n out of range |
| GlState.SameMatrix4IsEqual | src/graphics/gl_state.cc:220-228 | two Matrix4 uniform values compare equal exactly when the matrices are `==` |
| GlState.NaNNeverSame | src/graphics/gl_state.cc:227 | a matrix holding a NaN entry compares unequal to every uniform value, itself included |
| GlState.SetStateMeaning | src/graphics/gl_state.cc:23-31 | after `set_state` the flag is cached, and glEnable or glDisable was issued exactly when the cached flag was absent or different (also lines 60-68) |
| GlState.SetStateTwice | src/graphics/gl_state.cc:60-71 | a second identical `enable`/`disable` changes nothing, so repeating it issues one GL call |
| GlState.NewVaoRebindsBuffer | src/graphics/gl_state.cc:73-87 | a new VAO is bound, resets the buffer to UINT_MAX and empties both attribute caches, so the next `bind_array_buffer` reaches GL |
| GlState.SameVaoNoOp | src/graphics/gl_state.cc:73-80 | binding the current VAO again changes nothing |
| GlState.NewBufferResendsPointers | src/graphics/gl_state.cc:82-87 | a new buffer clears the pointer cache, so setting any attribute pointer afterwards reaches GL (also lines 205-209) |
| GlState.DeleteBoundTexture | src/graphics/gl_state.cc:95-101 | deleting the bound texture binds 0 first (one call unless it is 0), then deletes it |
| GlState.DeleteOtherTexture | src/graphics/gl_state.cc:95-101 | deleting an unbound texture only issues the delete |
| GlState.NoProgramNoUniform | src/graphics/gl_state.cc:146-181 | with no current program (UINT_MAX), `set_uniform` does nothing |
| GlState.UniformCaching | src/graphics/gl_state.cc:146-151 | with a current program, a value equal to the cached one is not sent; any other is sent once and cached |
| GlState.NaNUniformAlwaysSent | src/graphics/gl_state.cc:146-151 | a Matrix4 with a NaN is sent again on every `set_uniform`, since it never equals its cached copy (also line 227) |
| GlState.PendingForOtherProgram | src/graphics/gl_state.cc:137-144 | a value for a non-current program makes no GL call and waits in that program's pending map |
| GlState.PendingOverwrites | src/graphics/gl_state.cc:142 | a later pending value for the same uniform replaces the earlier one |
| GlState.ResendFrame | src/graphics/gl_state.cc:118-132 | re-sending pending values touches only the current uniforms and the call trace, which only grows |
| GlState.ResendAgrees | src/graphics/gl_state.cc:118-132 | after re-sending, every non-empty pending value agrees with the cache |
| GlState.ResendKeeps | src/graphics/gl_state.cc:118-132 | re-sending keeps every cached uniform it does not overwrite |
| GlState.ResendWithoutProgram | src/graphics/gl_state.cc:146-147 | with no current program, re-sending changes nothing |
| GlState.UseProgramFrame | src/graphics/gl_state.cc:109-135 | a switch saves the old program's values, empties the new one's pending map, counts one shader change and issues glUseProgram first |
| GlState.UseProgramMeaning | src/graphics/gl_state.cc:109-135 | after a switch the new program's saved values are current, overridden by its non-empty pending values, and nothing is left pending |
| GlState.SwitchBackRestores | src/graphics/gl_state.cc:114-116 | switching away and back, with nothing pending, gives the first program its values back |
| GlState.DeleteKeepsValuesAsWritten | src/graphics/gl_state.cc:188-197 | as written, deleting the current program leaves its values saved, because the switch to 0 saves them again after the clear |
| GlState.StaleValuesSkipUpload | src/graphics/gl_state.cc:188-197 | a program later created under the same name is believed to hold the old values, so setting one of them again never reaches GL (also line 149) |
| GlState.DeleteProgramForgets | src/graphics/gl_state.cc:188-197 | with the switch made first, nothing is saved or pending for the deleted program, it is no longer current unless it is 0, and glDeleteProgram is issued last |
| GlState.AttribCachesIdempotent | src/graphics/gl_state.cc:199-209 | enabling an attribute array twice, or setting the same pointer twice, issues one call |
| GlState.StateCache.constructor | src/graphics/gl_state.cc:48-58 | the statics start empty, the bindings at UINT_MAX |
| GlState.StateCache.Issue | src/graphics/gl_state.cc:100 | a direct GL call only extends the trace |
| GlState.StateCache.SetState | src/graphics/gl_state.cc:60-68 | the cache moves by SetStateStep (see SetStateMeaning) |
| GlState.StateCache.Enable | src/graphics/gl_state.cc:70 | `set_state(state, true)` |
| GlState.StateCache.Disable | src/graphics/gl_state.cc:71 | `set_state(state, false)` |
| GlState.StateCache.BindVertexArrayObject | src/graphics/gl_state.cc:73-80 | the cache moves by BindVaoStep (see NewVaoRebindsBuffer, SameVaoNoOp) |
| GlState.StateCache.BindArrayBuffer | src/graphics/gl_state.cc:82-87 | the cache moves by BindBufferStep (see NewBufferResendsPointers) |
| GlState.StateCache.BindTexture | src/graphics/gl_state.cc:89-93 | glBindTexture only when the texture differs from the bound one |
| GlState.StateCache.DeleteTexture | src/graphics/gl_state.cc:95-101 | the cache moves by DeleteTextureStep (see DeleteBoundTexture) |
| GlState.StateCache.ActivateTextureUnit | src/graphics/gl_state.cc:103-107 | glActiveTexture only when the unit differs from the active one |
| GlState.StateCache.SetUniform | src/graphics/gl_state.cc:146-186 | the cache moves by UniformStep (see UniformCaching, NoProgramNoUniform) |
| GlState.StateCache.SetProgramUniform | src/graphics/gl_state.cc:137-178 | the cache moves by ProgramUniformStep (see PendingForOtherProgram) |
| GlState.StateCache.ResendPending | src/graphics/gl_state.cc:118-132 | the loop over the pending map, in some iteration order of its keys, gives Resend |
| GlState.StateCache.SwitchTo | src/graphics/gl_state.cc:111-116 | the save, restore and switch before the pending values are sent |
| GlState.StateCache.UseProgram | src/graphics/gl_state.cc:109-135 | the cache moves by UseProgramStep (see UseProgramMeaning) |
| GlState.StateCache.DeleteProgramClearingFirst | src/graphics/gl_state.cc:188-197 | `delete_program` as written: the cache moves by DeleteProgramAsWritten (see DeleteKeepsValuesAsWritten) |
| GlState.StateCache.DeleteProgram | src/graphics/gl_state.cc:188-197 | the cache moves by DeleteProgramStep (see DeleteProgramForgets) |
| GlState.StateCache.EnableVertexAttribArray | src/graphics/gl_state.cc:199-203 | glEnableVertexAttribArray only for an attribute not yet known enabled |
| GlState.StateCache.SetVertexAttribPointer | src/graphics/gl_state.cc:205-209 | the pointer is sent only when it differs from the cached one |
| Shaders.AccumulateIsSum | src/graphics/shader.cc:106-110 | the `std::accumulate` fold is its starting value plus the sum of the extra widths |
| Shaders.Stride | src/graphics/shader.cc:106-110 | `attribute_stride` is 32 (3 + 3 + 2 floats) plus the sum of the extra attributes' widths |
| Shaders.StrideCoversBuiltins | src/graphics/shader.cc:106-110 | with non-negative widths the stride is at least the 32 bytes of the built-ins |
| Shaders.PackedLayout | src/graphics/shader.cc:72-104 | each extra attribute's offset is the previous one's plus its width, and the offset after the last equals `attribute_stride` |
| Shaders.InstallOne | src/graphics/shader.cc:96-99 | enabling a location and setting its pointer installs it, and keeps every other installed location |
| Shaders.PointersApplied | src/graphics/shader.cc:72-104 | after `initialize_attribute_arrays` every location l is enabled with the l-th pointer |
| Shaders.AttributesOf | src/graphics/shader.cc:148-167 | "extra-attributes" gives one attribute per entry, in order, or an error for a short entry |
| Shaders.QueueIndexLastWins | src/graphics/shader.cc:137-172 | the queue index is the last "queue-index" value of the spec, or the previous index when there is none |
| Shaders.AttributesLastWins | src/graphics/shader.cc:148-151 | the extra attributes are those of the last "extra-attributes" key, or the previous ones when there is none |
| Shaders.LastAttributesStart | src/graphics/shader.cc:150 | a fold from a starting list keeps it only when no key replaces it |
| Shaders.SpecStrings | src/graphics/shader.cc:152-166 | the spec "vec4" gives 4 components, width 16, not normalised, float; any other spec string leaves the layout unset |
| Shaders.UnknownKeyIgnored | src/graphics/shader.cc:142-171 | a key that is none of the four known ones changes nothing |
| Shaders.Locations | src/graphics/shader.cc:24-26 | the built-in names are bound to locations 0..2, and extra attribute i to 3 + i, all on the new program (also lines 191-200) |
| Shaders.Created | src/graphics/shader.cc:174-200 | the new program is created first; the locations are bound only when both shaders compile; nothing else changes |
| Shaders.Shader.constructor | src/graphics/shader.cc:22-35 | no program (UINT_MAX), no extra attributes, queue index 100, no uniform locations |
| Shaders.Shader.SetNamedUniform | src/graphics/shader.cc:48-70 | a known uniform's value goes to `set_uniform(program, location, value)`; an unknown name throws from `at` and sets nothing |
| Shaders.Shader.LocateUniforms | src/graphics/shader.cc:206-212 | every uniform name gets GL's location for it; other entries and fields are kept |
| Shaders.Shader.AttributeStride | src/graphics/shader.cc:106-110 | the shader's stride is Stride of its extra attributes |
| Shaders.Shader.PointerLayout | src/graphics/shader.cc:72-104 | one pointer per location: the built-ins 3, 3, 2 floats (the normal normalised) at 0, 12, 24, then each extra at the running offset, all with the stride |
| Shaders.Shader.InitializeAttributeArrays | src/graphics/shader.cc:72-104 | every location is enabled and given its pointer, through the GL state cache |
| Shaders.Shader.ApplySpec | src/graphics/shader.cc:137-172 | the loop over the spec map gives ReadSpec of the spec; on success the attributes and queue index are set from it |
| Shaders.Shader.BindBuiltinLocations | src/graphics/shader.cc:193-195 | issues the three built-in location bindings |
| Shaders.Shader.BindExtraLocations | src/graphics/shader.cc:197-200 | issues the extra attributes' location bindings after the built-ins |
| Shaders.Shader.BindLocations | src/graphics/shader.cc:191-200 | both loops together issue Locations of the program |
| Shaders.Shader.DestroyShader | src/graphics/shader.cc:116-119 | the program is deleted through `gl_state::delete_program` as it is written (its caches cleared before the switch to 0) and forgotten (UINT_MAX) |
| Shaders.ReloadKeepsStaleValues | src/graphics/shader.cc:121-127 | reloading the current shader, when GL hands back the same program name, leaves the old uniform values saved under it: using the new program restores them and setting one again issues no GL call |
| Shaders.Shader.Use | src/graphics/shader.cc:44-46 | `use_program` of the shader's program |
| Shaders.Shader.Reload | src/graphics/shader.cc:121-217 | the old program is deleted through the as-written `delete_program`, the spec read, a new program created; when both shaders compile the locations are bound and the uniforms looked up; a link failure changes nothing of this |
| Materials.MeshBufferSize | engine/graphics/src/material.cc:44-45 | `nverts * attribute_stride() / sizeof(float)` in `size_t` arithmetic: below 2^64 / 4, and the exact quotient when the product fits |
| Materials.NarrowProduct | engine/graphics/src/material.cc:45 | a product that fits in `size_t` is unchanged by the conversions |
| Materials.MeshFillsBuffer | engine/graphics/src/material.cc:44-47 | a mesh with vertices fills at least eight floats per vertex, so something is enqueued |
| Materials.Int32Cast | engine/graphics/src/material.cc:115 | `(int)` of a wider integer is the value modulo 2^32 in the int range, and the value itself when it fits |
| Materials.Placed | engine/graphics/src/material.cc:49-53 | the buffer after instantiating at the index: grown to fit, the floats before the index kept, the mesh's floats at the index, and the floats after them kept |
| Materials.Uploaded | engine/graphics/src/material.cc:100-110 | `upload_vbo_data` issues glBufferData when the new size exceeds the last upload, else glBufferSubData, and nothing else |
| Materials.SingleDrawOnly | engine/graphics/src/material.cc:112-116 | with single-draw debugging only the call whose count matches the chosen index reaches GL; without it every call draws `(int)_vertex_count` vertices |
| Materials.Stats.constructor | engine/graphics/src/material.cc:113-118 | the draw-call and triangle counters start at 0 |
| Materials.Material.constructor | engine/graphics/src/material.cc:22-24 | no VBO or VAO (UINT_MAX), last size, index and vertex count 0, nothing enqueued |
| Materials.Material.ClearVertexBuffer | engine/graphics/src/material.cc:35-38 | the index and vertex count become 0, so nothing is enqueued; the buffer and GL objects stay |
| Materials.Material.EnqueueMesh | engine/graphics/src/material.cc:40-56 | the mesh's floats are Placed at the index, the index advances by their count and the vertex count by nverts; the index stays within the buffer |
| Materials.Material.UploadVboData | engine/graphics/src/material.cc:100-110 | the enqueued floats are uploaded as in Uploaded; the last size grows to the new size when larger and never decreases |
| Materials.Material.DrawTriangles | engine/graphics/src/material.cc:112-119 | the draw call goes through Drawn; `draw_calls` rises by 1 and `triangle_count` by vertex count / 3 |
| Materials.Material.BindTexture | engine/graphics/src/material.cc:89-98 | with a texture: unit 0 activated, the texture bound, sampler 0 set; without: texture 0 bound |
| Materials.Material.Prepare | engine/graphics/src/material.cc:60-87 | `init_vbo` and `init_vao` run only while the names are UINT_MAX; `init_vao` binds both and installs the attribute arrays |
| Materials.Material.SubmitDrawCalls | engine/graphics/src/material.cc:58-69 | nothing when nothing is enqueued; otherwise the objects are made at most once, bound, the texture bound, the data uploaded and one draw call counted |
| Materials.GeneratedOnce | engine/graphics/src/material.cc:60-61 | once the VBO and VAO exist, a later submission generates neither |
| Materials.RefillKeepsBuffer | engine/graphics/src/material.cc:36-51 | clearing and enqueueing the same floats again leaves the buffer as it was; it is never shrunk |
| Materials.PlacedInOrder | engine/graphics/src/material.cc:52-54 | meshes enqueued one after another sit next to each other in the buffer |
| RenderQueues.TextureIndex | engine/graphics/include/rosewood/graphics/texture.h:31 | `Texture::index` is the name plus one taken in the 32-bit `GLuint`, so it is below 2^32 and is 0 exactly for a material without a texture or the texture named 2^32 - 1 |
| RenderQueues.LargestTextureTiesUntextured | engine/graphics/include/rosewood/graphics/texture.h:31 | a command with the texture named 2^32 - 1 and one without a texture, same camera and queue index, are comparable and ordered by depth alone |
| RenderQueues.LessIsLexicographic | src/graphics/render_queue.cc:29-45 | for commands whose differences fit in `int`, `operator<` is lexicographic on (camera, queue index, texture index, transform(2,3)) |
| RenderQueues.WideCameraDifferenceInverts | src/graphics/render_queue.cc:30-31 | a camera difference of 2^31 truncated to `int` puts the later camera first |
| RenderQueues.LessIsStrictWeakOrder | src/graphics/render_queue.cc:29-45 | on comparable commands `operator<` is irreflexive, asymmetric, transitive, and its incomparability transitive, as `std::sort` requires (also lines 92-94) |
| RenderQueues.InsertPermutes | src/graphics/render_queue.cc:92-94 | inserting one command adds exactly that command |
| RenderQueues.ConsSorted | src/graphics/render_queue.cc:92-94 | a command no later one is less than can head a sorted queue |
| RenderQueues.InsertSorted | src/graphics/render_queue.cc:92-94 | inserting a comparable command into a sorted queue keeps it sorted |
| RenderQueues.SortPermutes | src/graphics/render_queue.cc:92-94 | sorting keeps exactly the queue's commands |
| RenderQueues.ComparableWithin | src/graphics/render_queue.cc:92-94 | commands drawn from a comparable queue are comparable |
| RenderQueues.SortCommandsCorrect | src/graphics/render_queue.cc:92-94 | the sorted queue is a permutation of the queue, and non-decreasing under `operator<` when its commands are comparable |
| RenderQueues.FlushesFrom | src/graphics/render_queue.cc:50-53 | from position i on, command k is flushed exactly when it ends a run of one material and k + 1 ≥ i (also lines 96-105) |
| RenderQueues.FlushesAtBoundaries | src/graphics/render_queue.cc:50-53 | `run` flushes a command exactly when the next command has another material or it is the last (also line 104) |
| RenderQueues.EnqueuesFrom | src/graphics/render_queue.cc:57 | from position i on, exactly the commands from i are enqueued (also lines 100-103) |
| RenderQueues.EveryCommandEnqueued | src/graphics/render_queue.cc:57 | every command's mesh is enqueued, and nothing else (also lines 100-103) |
| RenderQueues.ExecuteActivates | src/graphics/render_queue.cc:47-86 | `execute` clears the material's buffer exactly when the command starts a run of its material |
| RenderQueues.ActivatesFrom | src/graphics/render_queue.cc:47-55 | from position i on, a material is activated exactly when a run using it starts there (also lines 100-103) |
| RenderQueues.ActivatesAtRunStarts | src/graphics/render_queue.cc:47-55 | a material is activated exactly where a run of commands using it starts (also lines 96-105) |
| RenderQueues.EmptyQueueDoesNothing | src/graphics/render_queue.cc:99-104 | an empty queue executes, activates and flushes nothing |
| RenderQueues.RenderQueue.constructor | engine/graphics/include/rosewood/graphics/render_queue.h:63 | a new queue holds no commands |
| RenderQueues.RenderQueue.Clear | src/graphics/render_queue.cc:88-90 | `clear` empties the queue |
| RenderQueues.RenderQueue.AddCommand | engine/graphics/include/rosewood/graphics/render_queue.h:86-90 | a command is appended exactly when it is visible |
| RenderQueues.RenderQueue.Sort | src/graphics/render_queue.cc:92-94 | for a queue whose commands pairwise have wrapped keys that differ by less than 2^31 and non-NaN depths, afterwards the queue is a permutation of the old one and non-decreasing under `operator<` |
| RenderQueues.RenderQueue.Run | src/graphics/render_queue.cc:96-105 | the actions are RunActions of the queue (execute each given the previous, flush the last); the render queue size is recorded |
| RenderQueues.FlushCommand | src/graphics/render_queue.cc:64-82 | nothing without enqueued meshes; otherwise the projection, identity model-view and normal uniforms are set, the shader used and one draw call counted when the material draws |
| Floats.FloatEqProperties | src/math/matrix4.cc:246-249 | the float `==` that matrix equality applies entry by entry: symmetric, reflexive exactly on non-NaN values, and beyond equal bits it only identifies +0 with -0 |
| Floats.OrderKeyMatchesEq | src/graphics/render_queue.cc:44 | the float `<` that breaks render-command ties: on non-NaN values exactly one of `<`, `>` and `==` holds, and equal places on the number line mean `==` |
| Floats.NaNUnordered | src/graphics/render_queue.cc:44 | a NaN is neither below nor above any float under `<` |
| Matrix4.Index | src/math/matrix4.cc:36-41 | entry (row, col) is stored at index col * 4 + row, below 16, from which row (index % 4) and column (index / 4) are recovered |
| Matrix4.GetDeterminesMatrix | src/math/matrix4.cc:36-38 | `get` reads every storage slot for exactly one (row, col), so matrices that agree on every entry are equal |
| Matrix4.Zero | src/math/matrix4.cc:13-15 | the default constructor gives a matrix whose sixteen entries are all zero |
| Matrix4.FromRows | src/math/matrix4.cc:17-34 | the element constructor takes its arguments row by row and stores them column by column: argument row * 4 + col lands at storage index col * 4 + row |
| Matrix4.FromRowsStorage | src/math/matrix4.cc:21-33 | storage slot k holds the argument at row-major position (k % 4) * 4 + k / 4 |
| Matrix4.Set | src/math/matrix4.cc:40-42 | `set` changes exactly entry (row, col) to v; `get` of that entry then reads v and every other entry is unchanged |
| Matrix4.Transposed | src/math/matrix4.cc:44-49 | `transposed` swaps rows and columns: entry (r, c) of the result is entry (c, r) of the input |
| Matrix4.TransposedTwice | src/math/matrix4.cc:44-49 | transposing twice gives the original matrix back |
| Matrix4.Mat3 | src/math/matrix4.cc:51-55 | `mat3` is the upper-left 3 x 3 block: its (r, c) argument is entry (r, c) of the matrix, for r, c < 3 |
| Matrix4.Identity4 | src/math/matrix4.cc:69-74 | `make_identity4` has 1 on the diagonal and 0 elsewhere |
| Matrix4.HandShift4 | src/math/matrix4.cc:76-81 | `make_hand_shift4` is the identity except entry (2, 2), which is -1 |
| Matrix4.Translation4 | src/math/matrix4.cc:107-112 | `make_translation4` is x, y, z, 1 down the last column over the first three columns of the identity |
| Matrix4.Scale4 | src/math/matrix4.cc:118-123 | `make_scale4` has x, y, z, 1 on the diagonal and 0 elsewhere |
| Matrix4.EqualIsEntrywise | src/math/matrix4.cc:246-254 | `==` holds iff every entry pair is float-equal, and `!=` is exactly its negation |
| Matrix4.EqualReflexive | src/math/matrix4.cc:246-249 | a matrix is `==` to itself exactly when none of its entries is NaN |
| FrameClock.Sub64 | src/utils/time.cc:22-28 | uint64 subtraction: the plain difference when it is non-negative, otherwise the difference plus 2^64 |
| FrameClock.CurrentUsecTime | src/utils/time.cc:11-16 | 10^6 * sec + usec when that fits in 64 bits, and in every case congruent to it modulo 2^64 |
| FrameClock.CurrentUsecTimeMonotone | src/utils/time.cc:11-16 | with usec below one second, a later (sec, usec) reading never gives a smaller time while it fits in 64 bits |
| FrameClock.Clock.constructor | src/utils/time.cc:5-7 | the first, last and current stamps all start at 0 |
| FrameClock.Clock.MarkFrameBeginning | src/utils/time.cc:34-48 | a zero first stamp takes the reading; a zero last stamp makes last and current the reading; otherwise last takes the old current and current takes the reading |
| FrameClock.Clock.MarkFrameMonotone | src/utils/time.cc:34-48 | with a reading no earlier than the current stamp, marking a frame keeps first <= last <= current and never decreases the time since the first frame |
| FrameClock.Clock.FrameUsecTime | src/utils/time.cc:26-28 | the current stamp minus the first (uint64), which is the current stamp while no frame was marked |
| FrameClock.Clock.DeltaUsecTime | src/utils/time.cc:22-24 | the numerator of `delta_time`: current minus last, wrapping when last is later |
| FrameClock.FirstFrame | src/utils/time.cc:22-47 | right after the first frame is marked, the frame time and the delta are both 0 |
| FrameClock.SecondFrame | src/utils/time.cc:22-47 | after marks at t1 > 0 and then t2 >= t1, the frame time and the delta are both t2 - t1 |
| Resources.Newest | src/core/resource_manager.cc:64-70 | the loader chosen among the first n is one of them |
| Resources.NewestIsEarliestGreatest | src/core/resource_manager.cc:56-78 | no loader is chosen exactly when no loader has the file with a modification second above 0; otherwise the chosen loader has the file with the greatest second of all, and no earlier loader has that second |
| Resources.LoadNewestAssetContents | src/core/resource_manager.cc:56-78 | the loop picks that loader and returns what it reads for the path, or reports failure when none qualifies |
| Resources.LiveViews | src/core/resource_manager.cc:21-26 | the views whose weak reference has not expired, in registration order: every one listed is live and every live one is listed |
| Resources.AssetView.constructor | src/core/resource_manager.cc:40-42 | a new view refers to its asset and is live |
| Resources.Asset.constructor | src/core/resource_manager.cc:14 | a new asset holds the given contents and no views |
| Resources.Asset.SetFileContents | src/core/resource_manager.cc:18-27 | the contents are replaced, and exactly the live views are notified, in registration order |
| Resources.CreateView | src/core/resource_manager.cc:29-38 | a fresh view of the asset, appended to the end of its view list |
| Resources.ResourceManager.constructor | src/core/resource_manager.cc:11-12 | no loaders and an empty cache |
| Resources.ResourceManager.AddResourceLoader | src/core/resource_manager.cc:52-54 | the loader is appended to the end of the loader list |
| Resources.ResourceManager.GetResource | src/core/resource_manager.cc:80-95 | a live cached asset is returned and the cache left as is; on a miss the newest contents become a fresh asset that is cached under the path and returned; when no loader has the file the result is null and the cache is unchanged |
| Resources.ResourceManager.NotifyFileChanged | src/core/resource_manager.cc:97-106 | nothing happens for a path never loaded; with no loader for the file nothing is cached anew and nothing is notified; otherwise a live cached asset keeps its place, gets the newest contents and notifies its live views, while an expired one is replaced by a fresh cached asset with those contents and no views, so nobody is notified; every other cached asset keeps its contents |
| Logging.LevelValue | include/rosewood/core/logging.h:16-21 | each level's enumerator value is one of 10, 20, 30, 40 |
| Logging.LevelsOrdered | include/rosewood/core/logging.h:16-21 | Debug < Info < Warning < Error, and distinct levels have distinct values and distinct names |
| Logging.LastSlash | src/core/logging.cc:11 | `rfind('/')`: none exactly when the path has no '/'; otherwise an index holding '/' with no '/' after it |
| Logging.Basename | src/core/logging.cc:10-18 | a path without '/' is returned whole; otherwise the suffix that starts at the last '/', slash included, so the result always ends the path |
| Logging.LogWriter.constructor | src/core/logging.cc:31-37 | the writer is enabled exactly when its level's value is at least the threshold's, and it keeps level, file, line and message; `_stream(message)` puts the put position at 0 |
| Logging.LogWriter.AtEnd | src/core/logging.cc:31-37 | the same writer with its stream opened at the end: the put position is the message's length |
| Logging.WrittenAt | include/rosewood/core/logging.h:29-32 | a write at put position p keeps the text before p, holds the written text from p on, and keeps the text after it; the result is as long as the longer of the old text and p plus the written length |
| Logging.WrittenAtEndAppends | include/rosewood/core/logging.h:29-32 | a write at the end of the text appends |
| Logging.WrittenAtTwice | include/rosewood/core/logging.h:29-32 | a second write where the first one stopped gives the same text as writing both at once |
| Logging.WrittenAtStartOverwrites | src/core/logging.cc:36 | writing "X" at the start of "ab" gives "Xb", not "abX" |
| Logging.LogWriter.Append | include/rosewood/core/logging.h:29-32 | `<<` writes the text at the put position and moves the position past it, only when the writer is enabled; a disabled writer keeps text and position |
| Logging.LogWriter.Finish | src/core/logging.cc:39-44 | a disabled writer writes nothing; an enabled one writes one record of level name, file base name, line and message |
| Logging.LogAtDefaultThreshold | src/core/logging.cc:29-44 | at the Debug threshold the source starts with, every message is written; two streamed texts are written over the message from its start, as one text would be |
| Logging.LogAppendedAtDefaultThreshold | src/core/logging.cc:29-44 | with the stream opened at the end, the record's message is the message followed by both texts |
| Logging.LogBelowThreshold | src/core/logging.cc:31-44 | a level below the threshold writes nothing, whatever was appended |
| FbxParser.CharAt | build-server/build/fbx_importer.py:19-23 | what `peek` sees at a position: one character, the one stored there, exactly when the position is inside the text, else '' |
| FbxParser.UpToEnd | build-server/build/fbx_importer.py:33-38 | where `read_up_to` stops lies after its start and within the text |
| FbxParser.UpToEndMeaning | build-server/build/fbx_importer.py:28-38 | `read_up_to` passes over no terminator after its start and stops on the first one, or at the end |
| FbxParser.WhileEnd | build-server/build/fbx_importer.py:45-50 | where `read_while` stops lies after its start and within the text |
| FbxParser.WhileEndMeaning | build-server/build/fbx_importer.py:40-50 | `read_while` takes every character after its start while it is in the set and stops on the first one that is not, or at the end |
| FbxParser.SkipEnd | build-server/build/fbx_importer.py:151-166 | `skip_whitespace` never moves the cursor back |
| FbxParser.SkipEndLands | build-server/build/fbx_importer.py:151-166 | `skip_whitespace` stops at the end of the text or on a character that is neither a space, a tab, a newline nor the ';' of a comment |
| FbxParser.SkipEndIdempotent | build-server/build/fbx_importer.py:151-166 | skipping whitespace a second time does not move the cursor |
| FbxParser.IntText | build-server/build/fbx_importer.py:89 | `int` accepts a run of digits and '-' exactly when it is digits with at most one leading '-' |
| FbxParser.IntTextValues | build-server/build/fbx_importer.py:89 | `int` of a digit string is its decimal value, and a leading '-' negates it |
| FbxParser.NumberAt | build-server/build/fbx_importer.py:81-89 | `parse_number` fails at the end of the text, and otherwise ends after its start, at most one past the end |
| FbxParser.QuoteAt | build-server/build/fbx_importer.py:96-99 | the quote the string loop stops on is a '"' at or after where it started |
| FbxParser.StringAt | build-server/build/fbx_importer.py:92-101 | `parse_string` ends after its start and within the text, past the closing quote |
| FbxParser.PropertyAt | build-server/build/fbx_importer.py:121-127 | one property never moves the cursor back |
| FbxParser.PropertiesAt | build-server/build/fbx_importer.py:118-136 | the property loop never moves the cursor back |
| FbxParser.ObjectAt | build-server/build/fbx_importer.py:104-148 | `parse_object` always ends after its start |
| FbxParser.SubObjectsAt | build-server/build/fbx_importer.py:138-146 | the sub-object loop always ends after its start, past the closing '}' |
| FbxParser.SubObjectsSkip | build-server/build/fbx_importer.py:142-145 | the sub-object loop gives the same result whether or not the whitespace before it was already skipped |
| FbxParser.SubObjectsStep | build-server/build/fbx_importer.py:143-145 | before a character other than '}', the loop parses one object, appends it and goes on from where it ended |
| FbxParser.SubObjectsFail | build-server/build/fbx_importer.py:143-144 | a sub-object that fails to parse fails the whole loop with its error |
| FbxParser.SubObjectsClose | build-server/build/fbx_importer.py:143-146 | the '}' ends the loop with the objects read so far, and the cursor goes past it |
| FbxParser.TopLevelAt | build-server/build/fbx_importer.py:171-176 | the top-level loop only adds keys: every key already collected stays |
| FbxParser.TopLevelSkip | build-server/build/fbx_importer.py:172 | the top-level loop gives the same result whether or not the whitespace before it was already skipped |
| FbxParser.TopLevelStep | build-server/build/fbx_importer.py:172-174 | before the end of the text, one object is parsed and stored under its key, replacing an earlier object with that key, or its error fails the parse |
| FbxParser.ParseBuffer.constructor | build-server/build/fbx_importer.py:7-10 | the buffer holds the whole text with the cursor at 0 |
| FbxParser.ParseBuffer.Peek | build-server/build/fbx_importer.py:19-23 | `peek` returns the character at the cursor, or '' past the end, and never moves |
| FbxParser.ParseBuffer.Read | build-server/build/fbx_importer.py:12-17 | `read` moves the cursor one forward and returns the character at the new position, or '' past the end |
| FbxParser.ParseBuffer.ReadBack | build-server/build/fbx_importer.py:25-26 | `read_back` moves the cursor one back |
| FbxParser.ParseBuffer.ReadUpTo | build-server/build/fbx_importer.py:28-38 | '' with the cursor unmoved at the end; otherwise the current character and those after it up to the first terminator, where the cursor stays |
| FbxParser.ParseBuffer.ReadWhile | build-server/build/fbx_importer.py:40-50 | '' with the cursor unmoved at the end; otherwise the current character and the run in the set after it, the cursor on the first character past the run |
| FbxParser.SkipWhitespace | build-server/build/fbx_importer.py:151-166 | the cursor ends where the skipping function says, and the result is true exactly when a character remains there |
| FbxParser.ParseNumber | build-server/build/fbx_importer.py:81-89 | the number, the error and the end position are those of the number function |
| FbxParser.ParseString | build-server/build/fbx_importer.py:92-101 | the text up to the next quote and the position past it, as the string function says; an unterminated string is an error |
| FbxParser.ParseProperties | build-server/build/fbx_importer.py:115-136 | the properties, the error and the end position are those of the property-loop function |
| FbxParser.ParseObject | build-server/build/fbx_importer.py:104-148 | the object (key, properties and sub-objects, or none without braces), the error and the end position are those of the object function |
| FbxParser.ParseSubObjects | build-server/build/fbx_importer.py:138-146 | the sub-objects, the error and the end position are those of the sub-object-loop function |
| FbxParser.ParseFbx | build-server/build/fbx_importer.py:169-176 | `parse_fbx` gives the top-level objects by key of the whole text, or the error, as the top-level-loop function says |
| FbxParserExamples.ObjectPlain | build-server/build/fbx_importer.py:104-148 | an object whose properties are not followed by '{' has the text before ':' as its key and no sub-objects |
| FbxParserExamples.ObjectBraced | build-server/build/fbx_importer.py:104-148 | an object whose properties are followed by '{' has the sub-objects read up to the matching '}' |
| FbxParserExamples.PropertiesComma | build-server/build/fbx_importer.py:129-136 | after a property followed by ',', the loop goes on past the comma and the whitespace after it |
| FbxParserExamples.PropertiesNothing | build-server/build/fbx_importer.py:120-134 | a character that starts no property adds nothing, and without a ',' the loop stops |
| FbxParserExamples.EmptyObject | build-server/build/fbx_importer.py:454-459 | "Key:  {\n}" has key "Key", no properties and an empty list of sub-objects |
| FbxParserExamples.NullaryProperty | build-server/build/fbx_importer.py:461-466 | "Key:\n" has key "Key", no properties and no sub-objects at all |
| FbxParserExamples.ObjectWithSubObject | build-server/build/fbx_importer.py:468-475 | "Parent:  {\n  Child:\n}" has one sub-object, "Child", which itself has none |
| FbxParserExamples.IntPropertyBeforeBraces | build-server/build/fbx_importer.py:477-482 | "Key: 123 {\n}" has the one property 123 and an empty list of sub-objects |
| FbxParserExamples.StringPropertyBeforeBraces | build-server/build/fbx_importer.py:484-489 | "Key: \"prop\" {\n}" has the one property "prop" and an empty list of sub-objects |
| FbxParserExamples.PropertyWithContinuation | build-server/build/fbx_importer.py:504-509 | "Key1: 123\nKey2: 456\n" is read as the object "Key1" with property 123 and no sub-objects, ending before "Key2" |
| FbxParserExamples.Fraction | build-server/build/fbx_importer.py:85-88 | "123.5" is a number with a fraction, handed to `float` as that text, and the cursor stops on the ',' after it |
| FbxParserExamples.NegativeInteger | build-server/build/fbx_importer.py:81-89 | "-12" is the integer -12 |
| FbxParserExamples.MinusInsideDigits | build-server/build/fbx_importer.py:81-89 | "1-2" is read as one run of number characters, which `int` rejects |
| FbxMesh.VertexIndex | build-server/build/fbx_importer.py:179-180 | a non-negative index is kept and a negative one is its bitwise complement, -idx - 1 |
| FbxMesh.VertexIndexOfComplement | build-server/build/fbx_importer.py:179-180 | a vertex index stored plainly and stored complemented as a polygon's last decode to the same vertex |
| FbxMesh.ChunksShape | build-server/build/fbx_importer.py:183-193 | the chunks followed by the dropped rest give back the input; every chunk has exactly `size` items and the rest fewer |
| FbxMesh.ChunksSnoc | build-server/build/fbx_importer.py:187-191 | one more item either completes the pending chunk, which is then emitted, or extends it |
| FbxMesh.MakeVertices | build-server/build/fbx_importer.py:183-193 | `make_vertices` returns those chunks |
| FbxMesh.TesselatePoly | build-server/build/fbx_importer.py:196-203 | a triangulation exists exactly for triangles and quads, with two fewer triangles than the polygon has corners |
| FbxMesh.TesselatedFan | build-server/build/fbx_importer.py:196-203 | the triangles are the fan (poly[0], poly[k+1], poly[k+2]): a triangle stays itself and a quad (a,b,c,d) gives (a,b,c) and (a,c,d) |
| FbxMesh.TesselatePolyList | build-server/build/fbx_importer.py:206-207 | every polygon in the result is a triangle |
| FbxMesh.TesselateListDefined | build-server/build/fbx_importer.py:206-207 | the list triangulates exactly when every polygon is a triangle or a quad; otherwise `chain` meets None and fails |
| FbxMesh.TesselatedCount | build-server/build/fbx_importer.py:196-207 | one triangle per triangle and two per quad |
| FbxMesh.LeavesAppend | build-server/build/fbx_importer.py:210-218 | flattening two lists one after the other is flattening each |
| FbxMesh.LeavesOfGroups | build-server/build/fbx_importer.py:210-218 | a list of flat lists flattens to their concatenation |
| FbxMesh.Flatten | build-server/build/fbx_importer.py:210-218 | `flatten` returns every item at any depth, in order |
| FbxMesh.ScanKeepsEveryIndex | build-server/build/fbx_importer.py:362-371 | the polygons followed by the unterminated tail hold every decoded index, in order, none lost or moved |
| FbxMesh.ScanCloses | build-server/build/fbx_importer.py:362-371 | one non-empty polygon per negative index; the tail, which is dropped, holds only non-negative indices and is empty when the last index is negative |
| FbxMesh.Mesh.constructor | build-server/build/fbx_importer.py:266-273 | the mesh keeps its name, groups the vertices in triples and builds the polygons from the index list |
| FbxMesh.Mesh.ConstructPolygonIndices | build-server/build/fbx_importer.py:362-371 | the polygon indices become the closed polygons of the index list, and nothing else changes |
| ObjImporter.Strip | build-server/build/obj_importer.py:31 | `strip` never makes a line longer |
| ObjImporter.StripIsSlice | build-server/build/obj_importer.py:31 | what `strip` keeps is one contiguous slice of the line, with only whitespace before and after it |
| ObjImporter.StripParts | build-server/build/obj_importer.py:31 | a line is the whitespace in front, what `strip` keeps, and the whitespace behind |
| ObjImporter.StripAround | build-server/build/obj_importer.py:41 | whitespace around a text that neither starts nor ends with whitespace is exactly what `strip` removes |
| ObjImporter.StripEnds | build-server/build/obj_importer.py:31 | what `strip` keeps neither starts nor ends with whitespace |
| ObjImporter.Split | build-server/build/obj_importer.py:32 | `split` always gives at least one piece |
| ObjImporter.SplitJoin | build-server/build/obj_importer.py:32 | joining the pieces with the separator gives the string back, and no piece holds the separator |
| ObjImporter.Tokens | build-server/build/obj_importer.py:31-32 | a stripped line split on single spaces has at least one token |
| ObjImporter.LStrip | build-server/build/obj_importer.py:41 | the whitespace `int` skips after a sign: a suffix of the text, only whitespace dropped, not starting with whitespace |
| ObjImporter.LStripBefore | build-server/build/obj_importer.py:41 | exactly the whitespace before a text that does not start with any is skipped |
| ObjImporter.StripAfterSign | build-server/build/obj_importer.py:41 | after a sign, `int` skips exactly the whitespace before the digits |
| ObjImporter.SplitLStrip | build-server/build/obj_importer.py:41 | a text is the whitespace skipped after a sign followed by what is left |
| ObjImporter.SplitAfterSign | build-server/build/obj_importer.py:41 | a text starting with a sign is the sign, whitespace, and the text with that whitespace skipped |
| ObjImporter.SignedDigitsAccepts | build-server/build/obj_importer.py:41 | a sign, whitespace only after a sign, then digits reads as the signed decimal value |
| ObjImporter.SignedDigitsShape | build-server/build/obj_importer.py:41 | every stripped text `int` accepts is an optional sign, whitespace only after a sign, then at least one digit, read as its signed value |
| ObjImporter.PyIntAccepts | build-server/build/obj_importer.py:41 | Python 2 `int` accepts whitespace, an optional sign, whitespace after the sign, one or more digits and whitespace, giving the signed decimal value |
| ObjImporter.PyIntShape | build-server/build/obj_importer.py:41 | every text Python 2 `int` accepts has exactly that shape, and its value is the signed decimal value of its digits |
| ObjImporter.PyIntExamples | build-server/build/obj_importer.py:41 | ' - 12\t' reads as -12, while the empty text and a lone '-' are rejected |
| ObjImporter.Ints | build-server/build/obj_importer.py:41 | a successful field gives one integer per '/'-separated text |
| ObjImporter.IntsMeaning | build-server/build/obj_importer.py:41 | converting the texts succeeds exactly when `int` accepts each of them, with each text's value in place; otherwise it is the ValueError of the first text `int` rejects |
| ObjImporter.Face | build-server/build/obj_importer.py:41 | a successful 'f' line gives one corner per field |
| ObjImporter.FaceMeaning | build-server/build/obj_importer.py:41 | an 'f' line succeeds exactly when every field converts; it then holds each field's corner in place, and otherwise the error of the first field that does not convert |
| ObjImporter.LineCoordinates | build-server/build/obj_importer.py:31-43 | a 'v', 'vt' or 'vn' line appends its remaining tokens to that list and changes no other coordinate list; other lines add no coordinates |
| ObjImporter.ParsedCoordinatesFrom | build-server/build/obj_importer.py:31-43 | over any run of lines, each coordinate list gains exactly the coordinates of its lines, in file order |
| ObjImporter.ParsedNameFrom | build-server/build/obj_importer.py:42-43 | the name is the second token of the last 'g' line, or the name before the run when there is none |
| ObjImporter.ParsedRecords | build-server/build/obj_importer.py:24-45 | a parsed file holds the coordinates of its 'v', 'vt' and 'vn' lines in file order, and the last group's name or '(unknown)' |
| ObjImporter.ParseObj | build-server/build/obj_importer.py:24-45 | `parse_obj`'s loop gives the mesh, or the error of its first bad 'f' or 'g' line, that the line-by-line function gives |
| ObjImporter.PyIndex | build-server/build/obj_importer.py:16-18 | Python indexing succeeds exactly for -len <= k < len, and a non-negative index reads that element |
| ObjImporter.FlattenedPositions | build-server/build/obj_importer.py:14-18 | when every corner's indices lie in 1..length, flattening succeeds and appends the 1-based vertices the corners name, in corner order |
| ObjImporter.ZeroIndexReadsLast | build-server/build/obj_importer.py:16-18 | a corner index 0 reads the last element of each list, as Python's index -1 does |
| ObjImporter.MakeFlattenedDict | build-server/build/obj_importer.py:9-22 | `make_flattened_dict`'s loops give the dictionary of the flattening function: the gathered vertices, with texture coordinates and normals under the key '' |

## Left out

- The file system calls of the build server are a map from path to contents plus function parameters. That covers `path.exists`, `os.walk`, `os.unlink`, `shutil.copy` and `ensure_dir_for_file_exists`. `hash_file` (SHA-1) is an uninterpreted function of the contents.
- Task `run` bodies are an oracle of type `Runner`: mesh import, PNG copy, shader assembly. Each run returns its boolean or raises, and leaves some files behind. JSON metadata reading and msgpack writing are function parameters.
- BuildGraph.BuildGraph.RunInvalidTasks: a shader task's `run` first calls `_update_dependencies` (build_tasks.py:168-169), which can rewire the graph's edges. The `Runner` oracle changes only files, so that rewiring inside the build loop is not modelled; the same rewiring at graph-construction time is.
- BuildGraph.BuildGraph.BuildCommand: inherits that limit of RunInvalidTasks.
- BuildGraph.BuildGraph.LoadBuildCache: a decoded value that is not a dict of byte strings to byte strings is `NotACache`, with no node changed. The source uses such a value as it is. A dict with other values copies those values into the caches, so the outputs read as invalid. A list or string makes `in` a membership or substring test, and the indexing that follows raises TypeError. Any other value raises TypeError once an input name is looked up.
- BuildGraph.BuildGraph.SaveBuildCache: when `dump` raises, the model leaves the files as they were. The source has already truncated the cache file and may have written part of it. Only a length of 2^64 bytes or more makes `dump` raise here.
- Python 2 dict and set iteration orders are parameters. This covers `BUILD_TASKS` (any order of the three builders), each `edges_out` set in the DFS, and the merge order of `save_build_cache`, where a repeated source key is last-wins.
- Python's recursion limit is the `fuel` parameter of the DFS.
- `print` output of the build server and the scripts' command-line entry points other than the build command are not modelled: usage messages, the `dot` command and `generate_graphviz`.
- DataFormatExamples: the tests ReadFloat32, ReadFloat64, ReadArraySmall, ReadArrayLarge and HeterogenousNumberArrayConversion are not stated. They expect decimal float values (5.5, 1.0322…, 12.5), and a float is kept here as its bit pattern with no decimal arithmetic. FloatAt states only that a float tag reads as a Float object and where it ends; `DataReaderRoundTrip` covers arrays in general.
- RbdefEncode.Dump: requires a value without floats. `dump_float` packs IEEE 754 bits and is not modelled. The decoder keeps the bytes of 'p'/'P' values uninterpreted, and the C++ reader keeps them as bit patterns.
- decode.py compares the discriminator with `'S'` using Python 2 byte/text equality. Here that is a plain byte comparison.
- The C++ reader's `assert`s and its reads past the end of the buffer are undefined behaviour in the source. Here they are `Failure` values: a missing tag, a non-string or repeated dictionary key, a truncated number or string.
- `Object`'s union storage and manual destructor calls are a record with one slot per member. Slots the tag does not name have no specified contents.
- DataObject.Assigned: says nothing about the slots b's tag does not select. In the source those share the union's storage with the member just written, so their bits are not a separate value the model could state.
- ComponentArray byte offsets, `reinterpret_cast`, placement new and alignment are left out. Slots are values in a StableVector of slots, 32 to a slice. The AlignedComponent tests are therefore not stated.
- `StableVector` allocation (`posix_memalign`, `new[]`, `free`) is left out. A slice is a Dafny array.
- Sizes and counters are unbounded integers, except where the source's width matters. Those cases wrap explicitly: the 32-bit entity ids, the `size_t` slice arithmetic of `resize`, the 64-bit clock, and the `int` casts of the render-queue comparison and `glDrawArrays`.
- Materials.Material.DrawTriangles: the engine-wide draw counters are unbounded naturals, not the source's wrapping statistics counters.
- `Entity::if_component` is not modelled, and neither are the component handle types beyond the value a slot holds.
- Transforms.TransformTree.AddChild: requires that the new parent is not inside the child's subtree. The source's `add_child` also accepts a child's own descendant as its parent. That closes a cycle, and `invalidate_transform_matrices` (include/rosewood/core/transform.h:188-193) then recurses without end, so that case is not modelled.
- Transforms: `set_local_position` with KeepWorld and all world/local matrix arithmetic are left out. Positions, rotations and scales are opaque stored values. Only the tree, the dirty flag and the rebuild order are modelled.
- Matrix and vector products, perspective matrices, rotation from quaternions and the `apply_*` helpers are float arithmetic and are left out. Matrix4 models only the index layout and the literal matrices.
- The GL calls themselves are a trace of issued calls. The names GL generates, compile and link status, and uniform and attribute locations are parameters.
- Shaders: `known_state` and `set_uniforms` are not modelled, and neither are `reload_shader`'s compile and link. The shader spec comes from msgpack decoding; it is a list of key/value pairs in the order the map is iterated.
- Shaders.AttributesOf: an "extra-attributes" entry that is too short is undefined behaviour in the source. The model reports it as an error.
- Shaders.SpecStrings: the layout fields an unknown spec string leaves uninitialised are the `unset` parameter.
- RenderQueues: the light uniforms that `execute` uploads are not modelled.
- RenderQueues: the view-frustum visibility test is a parameter.
- RenderQueues: the matrix products computed by the `RenderCommand` constructor are left out.
- RenderQueues: a camera is identified by its address as an integer.
- RenderQueues.RenderQueue.Sort: `std::sort` is not stable and leaves equal commands in an unspecified order. The model sorts by insertion, which fixes one of those orders.
- RenderQueues.RenderQueue.Sort: requires every pair of commands to be comparable: differences that fit in `int` and depths that are not NaN. `std::sort` needs a strict weak order, and without one its behaviour is undefined, so that case is not modelled.
- RenderQueues.RenderQueue.Run: the run is stated as the sequence of actions it performs (activate, enqueue, flush), not as GL calls.
- Materials: the destructor's GL deletions, `print_debug_info`, and mesh `instantiate` are left out. The floats a mesh instantiates are a parameter.
- Texture loading and reloading are left out. A texture is its GL name.
- FbxParser.NumberAt: a number with a fraction is kept as the text handed to `float`. Whether `float` accepts that text is not modelled; for example, "1.," raises ValueError in the source.
- FbxParser: a string or a brace that is never closed makes the source loop forever. The model returns `Failure(Unterminated)`.
- The FBX geometry is float arithmetic and is left out: `vec_cross`, `vec_normalized`, `triangle_normal`, `angle_between`, `lerp`, `recalculate_normals`, `smooth_normals`, `_shared_edges`.
- `FBXObject.find_object`/`get_property`, `add_normal_object`, `add_uv_object`, `_construct_vert_list`, `construct_polygons`, `tesselate` and `construct_mesh` are left out. The mesh covers only the vertices and the polygon indices.
- FbxParserExamples: five unit tests are not restated as examples: `test_parse_property`, `test_parse_multiline_property`, `test_parse_property_on_newline`, `test_parse_two_properties` and `test_parse_two_objects`. The general step lemmas cover each of their steps.
- ObjImporter.ParseObj: coordinates are kept as the text handed to `float`, so a coordinate `float` rejects is not an error here.
- ObjImporter.PyIntShape: Python 2 also accepts a trailing `L` on a number too large for a machine `int`, where `int` falls back to `long` parsing. The model rejects that suffix.
- `Asset`/`AssetView` change callbacks are not called. `set_file_contents` returns the views it would notify. Weak references are an `expired` flag set by whoever drops the last strong reference.
- The resource manager's log messages and `IResourceLoader` implementations are left out. A loader is a pair of maps.
- Logging: the mutex and the write to standard error are left out. `LogWriter::Finish` returns the record that would be written. `operator<<` is modelled for text only: the formatting of other types by `ostream` is left out, and a value is taken to be written as its text.
- `current_time` and `frame_time` divide by a floating-point constant and are left out. The readings behind them are modelled.
- matrix3.cc, quaternions, physics, particle systems, the scene graph in `scene_object`/`scene.cc`, and the remote-control server are left out.
- Windowing, image loaders, platform headers, the build server's worker and UI queues, and the build tooling are left out.
- The older duplicate copies of component_array.h, entity.h, object.h, object_conversions.h, material.cc, material.h and render_queue.h are not modelled separately. Each behaves as its engine/ counterpart, which is the one cited.

## Findings

| source | as written | input that shows it | evidently intended | confidence | as-written member | corrected member |
|---|---|---|---|---|---|---|
| engine/core/include/rosewood/core/entity.h:184 | `for_components` counts a 32-bit id from 0 while it is at most `_max_eid` | `_max_eid` = 2^32 - 1, reached on a fresh manager by destroying the entity with id 0 (engine/core/src/entity.cc:36-38 decrements 0), after which every id passes the test and the counter wraps to 0, so the loop never ends | visit each id from 0 to `_max_eid` once, then stop | not executed | Entities.AsWrittenLoopNeverExits, Entities.MaxEidCanWrap | Entities.EntityManager.ForComponents |
| build-server/build/build_graph.py:154-155 | `as_output_node` of a node reads `src.filename` before `src` is assigned | any argument with a `filename` attribute, such as a `FileNode`; the callers in build_tasks.py all pass path strings, so this branch is never reached from them | a node stands for its filename | not executed | BuildPaths.OutputNameAsWritten, BuildPaths.OutputNodeOfNodeFails | BuildPaths.OutputMirrorsTree |
| src/data-format/object.cc:71-97 | `operator=` destroys `*this` before copying from `other`, with no self-assignment guard | `a = a` where `a` is `make_string` of a one-byte string: the copy reads the string after its destructor ran (undefined behaviour) | assigning an object to itself leaves it unchanged | not executed | DataObject.SelfAssignedAsWritten, DataObject.SelfAssignmentReadsDestroyed | DataObject.AssignedChecked |
| src/graphics/gl_state.cc:188-197 | `delete_program` of the current program clears its saved uniforms, then `use_program(0)` saves the current values under it again | delete the current program after setting a uniform, then make a new program GL gives the same name: setting that uniform to the same value issues no GL call | a deleted program leaves nothing saved or pending | not executed | GlState.DeleteKeepsValuesAsWritten, GlState.StaleValuesSkipUpload, GlState.StateCache.DeleteProgramClearingFirst, Shaders.ReloadKeepsStaleValues | GlState.DeleteProgramForgets, GlState.StateCache.DeleteProgram |
| src/core/logging.cc:36 | `_stream(message)` opens the `ostringstream` for output only, so its put position is 0 and text streamed with `<<` (include/rosewood/core/logging.h:29-32) overwrites the message from its start | `LOG(kInfoLevel, "ab") << "X"` writes the message "Xb"; a `LOG` with no message starts from "" and is not affected | the streamed text follows the message, as with `_stream(message, std::ios_base::ate)`, giving "abX" | not executed | Logging.LogWriter.constructor, Logging.LogAtDefaultThreshold, Logging.WrittenAtStartOverwrites | Logging.LogWriter.AtEnd, Logging.LogAppendedAtDefaultThreshold, Logging.WrittenAtEndAppends |
| engine/core/include/rosewood/data-structures/variant.h:72-76 | `operator=` destructs the stored member, then copy-constructs from `other.data`, with no self-assignment guard | `v = v` for a `Variant` holding a non-void member such as a `std::string`: the copy reads the payload after its destructor ran (undefined behaviour) | assigning a variant to itself leaves it unchanged | not executed | Variants.SelfAssignedAsWritten, Variants.SelfAssignmentReadsDestroyed | Variants.Variant.AssignChecked |
