# BenchMatcha utilities, configuration and exception registry in Dafny

BenchMatcha runs Google Benchmark suites from Python and works out the
asymptotic complexity of each benchmarked function. This project models
three small parts of it, each proved correct against its own specification:

- **`utils.py`**: `power_of_2`, the bit-smearing loop that rounds an integer
  up to a power of two, and the `BigO` enumeration. `BigO` is a
  seven-entry two-way table between member names (`o1`, `oN`, ...) and the
  labels Google Benchmark prints (`(1)`, `N`, ...).
- **`errors.py`**: the module-level registry of exception classes, the
  `register_custom_exception` decorator that grows it, and the standard
  messages built by `SchemaError.response` and `ParsingError.response`.
- **`config.py`**: the `Config` defaults, and `update_config_from_pyproject`.
  That function copies the `[tool.BenchMatcha]` table of a pyproject file
  onto attributes that `Config` already has, and skips every other key.

Files:

- `wrappers.dfy`: `Option` and `Result`. They model Python's exceptions.
- `bits.dfy` (module `Bits`): Python's unbounded integers as two's-complement
  bit strings. `a >> k` is floor division by 2^k. `a | b` is defined bit by
  bit, so both stay exact for negative operands. The file also proves the
  bit lemmas the loop proof needs.
- `utils.dfy` (module `Utils`): `power_of_2` and `BigO`.
- `errors.dfy` (module `Errors`): the registry and the messages.
- `config.dfy` (module `Configuration`): `Config` and the update rule.

`power_of_2` is a loop over an unbounded integer: `x -= 1`, then
`x |= x >> mod` for `mod = 1, 2, 4, ...` while `mod < sys.getsizeof(x)`,
then `x + 1`. The model keeps the loop. The interpreter's object size
`sys.getsizeof(x)` becomes the parameter `size`. The shifts smear each set
bit over `ShiftWidth(size)` positions, the least power of two that is at
least `size`. `Utils.PowerOf2` states the resulting bits for every integer
input, negative ones included. It also states that the result is the next
power of two whenever 0 <= x and x - 1 < 2^ShiftWidth(size). On 64-bit
CPython an integer below 2^60 occupies 24 to 32 bytes, so the width is 32
and the result is right for every 0 <= x <= 2^32; 2^32 + 1 is the smallest
input it gets wrong (see Findings). Larger inputs are not all wrong: a power
of two, for instance, still maps to itself, because x - 1 is then all ones.

The unit tests in `tests/unit/test_config.py` call a `ConfigUpdater` class.
`config.py` has no such class, so the model follows `config.py`: the
function `update_config_from_pyproject` with a `for` loop over the section.

## Model

| member | source | states |
|---|---|---|
| `Utils.PowerOf2` | src/BenchMatcha/utils.py:11-20 | For every integer x and object size `size`: bit j of the result minus 1 is set exactly when x - 1 has a set bit at one of the ShiftWidth(size) positions from j upward. When 0 <= x and x - 1 < 2^ShiftWidth(size), the result is NextPowerOf2(x). So 0 gives 0 and 1 gives 1. |
| `Utils.NextPowerOf2` | tests/unit/test_utils.py:36-44 | Reference definition, independent of the loop: 0 for x = 0; otherwise a power of two r with x <= r < 2x. |
| `Utils.LeastPowerOf2From` | src/BenchMatcha/utils.py:12 | Doubling from a power of two below 2x reaches a power of two in [x, 2x). |
| `Utils.NextPowerOf2Least` | src/BenchMatcha/utils.py:12 | No power of two that is at least x is smaller than NextPowerOf2(x). |
| `Utils.PowerOf2Fixed` | tests/unit/test_utils.py:43 | A power of two maps to itself. |
| `Utils.NextPowerOf2Idempotent` | tests/unit/test_utils.py:36-44 | Rounding up twice gives the same as rounding up once. |
| `Utils.PowerOf2TestTable` | tests/unit/test_utils.py:40-44 | For every j >= 2: 2^j - 1 and 2^j go to 2^j, and 2^j + 1 goes to 2^(j+1). |
| `Utils.PowerOf2Unique` | src/BenchMatcha/utils.py:12 | Two powers of two p <= q < 2p are equal, so the next power of two is unique. |
| `Utils.SmearedStep` | src/BenchMatcha/utils.py:16-18 | One round of or-ing x with `x >> mod` turns a value smeared over mod positions into one smeared over 2·mod positions. This is the loop invariant. |
| `Utils.SmearedValue` | src/BenchMatcha/utils.py:13-20 | Once the smeared width covers every bit of x - 1 >= -1, the smeared value plus 1 is NextPowerOf2(x). |
| `Utils.CPythonShiftWidth` | src/BenchMatcha/utils.py:15-16 | Object sizes of 17 to 32 bytes give shifts 1, 2, 4, 8, 16, a width of 32 bits. |
| `Utils.PowerOf2BeyondWidth` | src/BenchMatcha/utils.py:15-18 | If the width m is a power of two and size = m, then x = 2^m + 1 comes out as 2^(m+1) - 1, which is not a power of two. |
| `Utils.PowerOf2Counterexample` | src/BenchMatcha/utils.py:11-20 | `power_of_2(2**32 + 1)` with CPython's size 32 returns 2^33 - 1, which is not a power of two. |
| `Utils.PowerOf2Corrected` | src/BenchMatcha/utils.py:15-16 | With the loop bounded by `(x - 1).bit_length()`, the result is NextPowerOf2(x) for every x >= 0. |
| `Bits.Shr` | src/BenchMatcha/utils.py:17 | Python's `x >> mod` on an unbounded integer: floor division by 2^mod, so 2^mod * r <= x < 2^mod * (r + 1), negative x included. |
| `Bits.BitOr` | src/BenchMatcha/utils.py:17 | Python's bitwise or of x and y: negative exactly when an operand is; for non-negative operands at least the larger one and at most their sum. Bitwise meaning in `Bits.BitOrBit`. |
| `Bits.BitLength` | src/BenchMatcha/utils.py:15-16 | `int.bit_length()`, the bound the corrected loop uses: 0 exactly for 0, otherwise 2^(r-1) <= n < 2^r. |
| `Bits.BitOrBit` | src/BenchMatcha/utils.py:17 | Every bit of Python's bitwise or of a and b is the or of the same bit of a and b, for all integers. |
| `Bits.BitShr` | src/BenchMatcha/utils.py:17 | Bit j of `a >> k` is bit j + k of a, for all integers. |
| `Utils.Name` | src/BenchMatcha/utils.py:35-41 | The member names `o1` ... `oLambda`; every name starts with `o`. |
| `Utils.Label` | src/BenchMatcha/utils.py:35-41 | The member values `(1)` ... `f(N)`; no value starts with `o`, so no string is both a name and a value. |
| `Utils.FindByName` | src/BenchMatcha/utils.py:46 | A scan of the table: it finds a member with the given name, or none exists. |
| `Utils.FindByLabel` | src/BenchMatcha/utils.py:51 | A scan of the table: it finds a member with the given label, or none exists. |
| `Utils.Get` | src/BenchMatcha/utils.py:43-46 | `BigO.get(name)` returns the label of the member with that name. If no member has that name it fails with KeyError(name). |
| `Utils.Back` | src/BenchMatcha/utils.py:48-51 | `BigO.back(value)` returns the name of the member with that label. If no member has that label it fails with ValueError(value). |
| `Utils.NameInjective` | src/BenchMatcha/utils.py:35-41 | No two members share a name. |
| `Utils.LabelInjective` | src/BenchMatcha/utils.py:35-41 | No two members share a label. |
| `Utils.GetBackMember` | src/BenchMatcha/utils.py:35-51 | For every member: get(name) is its label and back(label) is its name. |
| `Utils.GetBackInverse` | src/BenchMatcha/utils.py:43-51 | get(n) == label exactly when back(label) == n. Both directions hold for all strings. |
| `Utils.GetBackTable` | tests/unit/test_utils.py:63-96 | The seven name/label pairs: o1/(1), oN/N, oNSquared/N^2, oNCubed/N^3, oLogN/lgN, oNLogN/NlgN, oLambda/f(N). |
| `Errors.WithClass` | src/BenchMatcha/errors.py:33 | After adding, the class is registered and every class registered before still is. Nothing else is added. |
| `Errors.ExceptionRegistry.constructor` | src/BenchMatcha/errors.py:22-28 | The registry starts as TypeError, ValueError, RuntimeError, JSONDecodeError, FileNotFoundError. |
| `Errors.ExceptionRegistry.Register` | src/BenchMatcha/errors.py:31-35 | `register_custom_exception` returns exactly the class it was given. The registry becomes the old one plus that class. |
| `Errors.LoadModule` | src/BenchMatcha/errors.py:22-50 | After the module loads, the registry holds the five built-ins plus SchemaError and ParsingError. |
| `Errors.LoadedRegistry` | src/BenchMatcha/errors.py:22-50 | Loading adds exactly SchemaError and ParsingError to the built-in five. |
| `Errors.RegisterIdempotent` | src/BenchMatcha/errors.py:22-33 | Registering a class that is already registered leaves the registry unchanged. |
| `Errors.RegisterThenRemove` | tests/unit/test_errors.py:51-54 | Registering a fresh class and then removing it restores the prior registry. |
| `Errors.SchemaErrorResponse` | src/BenchMatcha/errors.py:42-47 | Returns a SchemaError whose message is "Unsupported json schema version: " followed by the version. The version reads back from the message. |
| `Errors.SchemaErrorResponseInjective` | src/BenchMatcha/errors.py:45-47 | Different versions give different messages. |
| `Errors.ParsingErrorResponse` | src/BenchMatcha/errors.py:54-60 | Returns a ParsingError with one fixed message that takes no input. The message is not a schema-version message. |
| `Errors.ResponsesDistinct` | src/BenchMatcha/errors.py:42-60 | No SchemaError message equals the ParsingError message. |
| `Configuration.Config.constructor` | src/BenchMatcha/config.py:42-47 | Defaults: color is Prism[3], line_color is Prism[4], font is "Space Grotesk Light, Courier New, monospace". |
| `Configuration.Section` | src/BenchMatcha/config.py:54 | `data.get("tool", {}).get("BenchMatcha", {})`: a missing `tool` or `BenchMatcha` reads as an empty section; a `tool` that is not a table fails with AttributeError on `tool`, a `BenchMatcha` entry that is not a table with AttributeError on `BenchMatcha`; otherwise the section is that table. |
| `Configuration.Attr` | src/BenchMatcha/config.py:55 | `getattr(Config, key)` for a declared name returns one of the three stored values. |
| `Configuration.SetAttr` | src/BenchMatcha/config.py:59 | `setattr(Config, key, value)`: afterwards `getattr` on key gives value, and every other declared attribute is unchanged. |
| `Configuration.AttributesDetermineState` | src/BenchMatcha/config.py:45-47 | Two states are equal exactly when `getattr` agrees on all three declared names, both directions. |
| `Configuration.ApplySection` | src/BenchMatcha/config.py:54-59 | Every attribute named in the section takes the section's value. Every attribute not named keeps its value. |
| `Configuration.Config.UpdateFromPyproject` | src/BenchMatcha/config.py:50-59 | A `tool` or `BenchMatcha` entry that is not a table raises AttributeError and changes nothing. Otherwise the new state applies the section to the old one, and exactly the keys that are not attributes are skipped. |
| `Configuration.UnknownKeysIgnored` | src/BenchMatcha/config.py:55-57 | Keys that are not attributes of Config make no difference to the result. |
| `Configuration.ApplyIdempotent` | src/BenchMatcha/config.py:59 | Applying the same section twice gives the same state as applying it once. |
| `Configuration.MissingSectionNoChange` | src/BenchMatcha/config.py:54 | A missing `tool` table, or a missing `BenchMatcha` table inside it, gives an empty section and no change. |
| `Configuration.PyprojectExample` | tests/unit/test_config.py:51-77 | The unit tests' decoded file sets color "#FFF", line_color "#333" and font "Courier", and skips only `upsupported_key`. |

## Findings

| source | as written | input that shows it | evidently intended | confidence | as-written member | corrected member |
|---|---|---|---|---|---|---|
| src/BenchMatcha/utils.py:15-16 | The loop bound is `sys.getsizeof(x)`, the object's size in bytes. For integers below 2^60 that is at most 32, so the shifts stop at 16 and smear only 32 bits. | `power_of_2(2**32 + 1)`: `sys.getsizeof(2**32)` is 32 on 64-bit CPython, and the result is 2^33 - 1 | The next power of two for every non-negative integer, as the docstring says. Bounding the loop by `(x - 1).bit_length()` gives that. | not executed; the byte sizes are those 64-bit CPython reports | `Utils.PowerOf2Counterexample` | `Utils.PowerOf2Corrected` |

## Left out

- `Utils.PowerOf2`: `sys.getsizeof(x)` is a parameter, because its value comes from the interpreter and its version. The CPython range 24 to 32 bytes for integers below 2^60 is stated in `Utils.CPythonShiftWidth`, not derived.
- `_simple_stats` (src/BenchMatcha/utils.py:23-28) is not modelled. It is numpy floating-point mean and standard deviation with NaN handling.
- `Utils.Get`, `Utils.Back`: `BigO` is also a `str` subclass, so members compare equal to their labels. `BigO(member)` also accepts a member itself. Neither is modelled; lookups take plain strings.
- `Errors.SchemaErrorResponse`: the version is taken as text. The f-string's `str()` of a non-string version (the unit test passes the integer 1) is not modelled.
- `Errors.ExceptionRegistry.Register`: classes are compared by a tag, not by Python object identity. The check that every custom class in the registry subclasses `Exception` and has `response` (tests/unit/test_errors.py:68-82) concerns the class hierarchy, which is not modelled.
- `Configuration.Config.UpdateFromPyproject`: on a Python class, `hasattr` also holds for names inherited from `object` (`__doc__`, `__module__`, ...). Python sets some of these and raises on others (`__class__`, `__dict__`); neither is modelled. The model treats only the three declared attributes as existing.
- `Configuration.Config.UpdateFromPyproject`: `toml.load(path)` (file reading and TOML decoding) is outside the model. The method takes the decoded mapping. TOML floats and dates/times are not among the modelled values. The text of the `log.info` message is not modelled; the skipped keys are returned instead.
- `Configuration.Config.constructor`: the Prism palette comes from the plotting module, which is not part of this model. The palette is a parameter with more than four entries.
- The complexity-fitting engine and the benchmark report parser (`complexity.py`, `structure.py`) are not part of this model. Neither are `handlers.py`, `sifter.py` and `runner.py` (JSON and file plumbing, directory scanning, dynamic imports, running benchmarks and plotting).
