# Free-group words for the Banach–Tarski animations

The animation scenes that build the set M and the first paradoxical
decomposition pick random rotations from the free group F2 = <sigma, tau>
and play them on a sphere. Each rotation is a word over four components:
sigma, tau and their inverses, numbered 0, 1, 2, 3. A word has 2 to 7
components. No component may be followed by its own inverse, so every word
is reduced. Each word comes with a LaTeX label, the concatenation of its
components' translations. When a scene plays a word, each component becomes
a rotation by ±arccos(1/3). Sigma turns about RIGHT (the x-axis) and tau
about UP (the y-axis).

This toolkit appears three times, textually identical, in three scene files:

| piece | scenes/6_creating_m.py | scenes/first_decomp.py | scenes/7_sphere_from_m.py |
|---|---|---|---|
| component constants | 11-14 | 9-12 | 11-14 |
| `axis_angle_from_rotation_component` | 27-42 | 25-40 | 27-42 |
| `rotation_translation_dict` | 44-49 | 42-47 | 44-49 |
| `generate_random_rotations_with_labels` | 52-73 | 50-71 | 52-73 |

The model states the toolkit once, and it stands for all three copies. The
rows of the table below cite whichever copy is convenient. The same lines,
shifted by the offsets above, hold in the other two copies.

Modules:

- `Generators` (generators.dfy): the four components as integer constants.
  It also holds the formal inverse `(c + 2) % 4` and `Cancels`, the
  four-way test of the rejection loop. `AxisAngleFromRotationComponent`
  maps a component to an axis and a signed angle. The magnitude
  arccos(1/3) is kept symbolic, so a `Rotation` records only the axis and
  the sign.
- `FreeWords` (free_words.dfy): `IsWord` (every component is a generator)
  and `IsReduced` (no component cancels its predecessor). It also holds
  `Reduce`, free reduction with a stack. `Reduce` is the reference
  definition that `IsReduced` is proved against.
- `Labels` (labels.dfy): the translation dictionary as a `map<int, string>`
  and `Label`, the in-order concatenation of translations. It also holds
  `ParseLabel`, which reads a label back into its word. The parser shows
  that a label identifies its word.
- `RandomRotations` (random_rotations.dfy): the sampler as a method, with
  the source's nested loops. The list appends and the `+=` on the label
  become sequence updates. Each random draw is a nondeterministic choice
  (`:|`) over the values the generator could return.

## Model

| member | source | states |
|---|---|---|
| `Generators.Inverse` | scenes/6_creating_m.py:11-14 | the inverse of a generator is a generator, differs from it, and is the one the rejection loop's test says cancels it |
| `Generators.InverseIsInvolution` | scenes/6_creating_m.py:11-14 | inverting a generator twice gives it back |
| `Generators.Cancels` | scenes/6_creating_m.py:63-68 | the rejection loop's test, its four disjuncts as written; it holds only for two different generators |
| `Generators.CancelsIffInverse` | scenes/6_creating_m.py:63-68 | the loop's four-way test holds exactly when both values are generators and the new one is `(last + 2) % 4`; a value outside 0..3 never cancels |
| `Generators.CancelsSymmetric` | scenes/6_creating_m.py:63-68 | y cancels after x exactly when x cancels after y |
| `Generators.AxisAngleFromRotationComponent` | scenes/6_creating_m.py:27-42 | the sign is -1, 0 or +1 and is 0 exactly for a non-generator, which gets the default (RIGHT, 0); the axis is UP exactly for tau and tau^-1; the sign is positive exactly for sigma and tau |
| `Generators.InverseRotation` | scenes/first_decomp.py:28-39 | a generator and its inverse share an axis and have opposite signs, so the inverse's rotation undoes the generator's |
| `Generators.AxisAngleInjective` | scenes/7_sphere_from_m.py:27-42 | the four generators map to four different rotations |
| `Generators.UndoesIffCancels` | scenes/6_creating_m.py:30-41 | the rotation of `next` undoes the rotation of `last` exactly when the rejection loop's test rejects `next` after `last` |
| `FreeWords.ExtendReduced` | scenes/6_creating_m.py:60-70 | appending a component that does not cancel the last one keeps a word reduced |
| `FreeWords.ReduceIsReduced` | scenes/first_decomp.py:58-68 | free reduction yields a reduced word |
| `FreeWords.ReducedIsFixed` | scenes/7_sphere_from_m.py:60-70 | free reduction leaves a reduced word unchanged |
| `FreeWords.ReducedIffFixed` | scenes/6_creating_m.py:60-70 | a word is reduced exactly when free reduction leaves it unchanged |
| `FreeWords.ReducedWordNeverUndoes` | scenes/7_sphere_from_m.py:60-70 | played in order, the rotations of a reduced word never undo the one just played |
| `Labels.DictKeysAreGenerators` | scenes/first_decomp.py:42-47 | the dictionary `RotationTranslationDict` has a key for exactly the four generators, so the lookup never fails for an accepted component |
| `Labels.Translate` | scenes/6_creating_m.py:44-49 | looks a generator up in `RotationTranslationDict`, the four-entry dictionary as written; every translation is a LaTeX command of 4 to 11 characters that starts with a backslash |
| `Labels.Label` | scenes/7_sphere_from_m.py:56-71 | the label built by the loop's `+=`, as the in-order concatenation of translations; it is empty exactly for the empty word, otherwise starts with a backslash, and each component adds 4 to 11 characters |
| `Labels.LabelAppend` | scenes/6_creating_m.py:56-71 | appending a component and growing the label by its translation keeps the label equal to the word's label |
| `Labels.ParseLabel` | scenes/first_decomp.py:54-69 | whatever the parser returns is a word of generators whose label is exactly the parsed string |
| `Labels.ParseLabelOfLabel` | scenes/7_sphere_from_m.py:44-49 | parsing the label of any word gives that word back |
| `Labels.LabelInjective` | scenes/6_creating_m.py:44-49 | two words with the same label are equal |
| `RandomRotations.GenerateRandomRotationsWithLabels` | scenes/6_creating_m.py:52-73 | returns exactly n pairs, or none when n <= 0; every word has 2 to 7 components, all in 0..3; no component cancels its predecessor; every label is the in-order concatenation of the dictionary's translations of the word |

## Left out

- The `construct` methods of every scene are left out. They are sequences of calls into the animation framework: playing rotations, typesetting, fading and narration.
- `get_random_point_on_sphere` is left out. It computes floating-point square roots of uniform random draws.
- `get_point_string` is left out. It formats the floating-point centre of a framework object.
- `dot_radial_line` is left out. It is an updater of the animation framework.
- `modified_arctan2`, `FloatNumberAnimation`, images.py and playground.py are left out. They are float trigonometry, float interpolation and static scene composition.
- The numeric value of arccos(1/3) is left out. The angle is kept as a sign times that symbolic magnitude. The hard-coded point lists of the later scenes are left out too.
- The distribution of `random.randint` and the fixed seed `random.seed(14)` are left out. Every draw is a nondeterministic choice among the values `randint` can return, so the model says which outcomes are possible, not how likely each one is.
- GenerateRandomRotationsWithLabels: the rejection `while` loop becomes a single choice of a component that satisfies the loop's exit condition. The model does not capture how many redraws happen, or that the loop ends only with probability 1.
- Translate: requires a generator. The source's dictionary lookup raises `KeyError` for any other key, and the sampler only ever looks up generators.
