# bluepms core, modelled in Dafny

This project models the logic of the BLUEPMS marketing site, leaving out its rendering.
It covers five parts:

- **The Plasma background** (`components/ui/Plasma.tsx`):
  - the hex colour parser `hexToRgb`;
  - the loop that normalises the palette to six stops;
  - the uniform values and the device pixel ratio derived from the props;
  - the GLSL palette functions `samplePaletteLinear` and `samplePaletteSmooth`;
  - the final colour and alpha blend of the fragment shader.
- **The contact page** (`app/contact/page.tsx`):
  - the e-mail check and the submit guard;
  - when the e-mail error shows;
  - the form's `useState` fields, modelled as a class `ContactForm.Form` whose methods are the page's handlers.
- **The contact endpoint** (`app/api/contact/route.ts`):
  - `escapeHtml`;
  - the order of the checks in `POST` and its status codes;
  - the SMTP transport options;
  - the mail it sends.
- **The glass word layout** (`components/ui/LiquidGlassWord.tsx`): font size, spacing and the x position of each letter.
- **The sitemap** (`app/sitemap.ts`).

JavaScript helpers the code relies on are modelled in `JsText`:

- `String.prototype.trim` with ECMAScript's white space;
- the decimal `Number` conversion;
- template-literal numerals.

Floating point is modelled as exact `real` arithmetic.

Modules and files:

| module | file | models |
|---|---|---|
| `Wrappers` | wrappers.dfy | `Option` |
| `RealArith` | real_arith.dfy | small lemmas on products of reals |
| `PlasmaColor` | plasma_color.dfy | `hexToRgb` and the regular expression it uses |
| `PlasmaConfig` | plasma_config.dfy | props, defaults, `stops`, `pCount`, the uniforms, `dpr` |
| `PlasmaShader` | plasma_shader.dfy | `samplePaletteLinear`, `samplePaletteSmooth`, the final blend |
| `JsText` | js_text.dfy | `trim`, `trimStart`, `trimEnd`, decimal numerals |
| `HtmlEscape` | html_escape.dfy | `escapeHtml`, with a reference one-pass escape and its inverse |
| `ContactMail` | contact_mail.dfy | the subject, html and text of the mail |
| `ContactApi` | contact_api.dfy | `POST` as a pure function of request, environment and SMTP outcome |
| `ContactForm` | contact_form.dfy | `isValidEmail`, `canSubmit`, the form class and its handlers |
| `GlassWord` | glass_word.dfy | the letter layout |
| `Sitemap` | sitemap.dfy | the sitemap entries |

What the code does, and therefore the model, about the palette and the renderer:

- **Short palettes.** A palette of fewer than two colours is not rejected. It is padded with its last colour, or with `#93C5FD` when it is empty, up to six stops.
- **Renderer lifecycle.** The component has no managed render lifecycle, no resize coalescing and no program disposal, so none is modelled.
- **Stop count.** The stop count the shader sees is always six.

## Model

| member | source | states |
|---|---|---|
| PlasmaColor.ExecHexPattern | components/ui/Plasma.tsx:21 | one match exactly for an optional `#` plus six hex digits; the three groups split the digits in pairs; no match on every other string |
| PlasmaColor.HexToRgb | components/ui/Plasma.tsx:20-27 | the result is in the unit cube; it is the fallback (1, 0.5, 0.2) exactly when the pattern does not match |
| PlasmaColor.ParseByte | components/ui/Plasma.tsx:24-26 | `parseInt(pair, 16)` of two hex digits is a byte below 256 |
| PlasmaColor.EncodeByte | components/ui/Plasma.tsx:24-26 | two lower-case hex digits that `ParseByte` reads back as the byte |
| PlasmaColor.HexToRgbOfEncoded | components/ui/Plasma.tsx:20-27 | round trip: three bytes written as a colour, with or without `#`, parse to (r/255, g/255, b/255) |
| PlasmaColor.ExecHexPatternUpper | components/ui/Plasma.tsx:21 | upper-casing a string keeps it matching or not, and upper-cases the captured groups |
| PlasmaColor.HexToRgbCaseInsensitive | components/ui/Plasma.tsx:21-27 | the `i` flag: upper-casing the input never changes the colour |
| PlasmaColor.NonSixDigitFormsFallBack | components/ui/Plasma.tsx:21-22 | 3-digit shorthand, 8 digits, a non-hex digit and a doubled `#` all give the fallback |
| PlasmaColor.DefaultStopColor | components/ui/Plasma.tsx:20-27 | `#93C5FD` parses to (147, 197, 253)/255 |
| PlasmaConfig.Stops | components/ui/Plasma.tsx:188-192 | reference list of six stops: the first min(n, 6) are the input, the rest repeat its last colour (or `#93C5FD`) |
| PlasmaConfig.NormaliseStops | components/ui/Plasma.tsx:188-192 | the slice-then-push loop builds exactly `Stops(paletteColors)` |
| PlasmaConfig.PCount | components/ui/Plasma.tsx:194 | lies in [2, 6], and equals the length when that is already in range |
| PlasmaConfig.PCountAlwaysSix | components/ui/Plasma.tsx:188-194 | `pCount` is 6 for every palette |
| PlasmaConfig.EmptyPaletteStops | components/ui/Plasma.tsx:190 | an empty palette gives six `#93C5FD` |
| PlasmaConfig.AuroraPaletteTruncated | components/ui/aurora-background.tsx:26-36 | the nine colours of the aurora background are cut to their first six |
| PlasmaConfig.DirectionSign | components/ui/Plasma.tsx:260 | −1 exactly for `reverse`, +1 otherwise (pingpong runs forward) |
| PlasmaConfig.ScaleUniform | components/ui/Plasma.tsx:261 | positive, at least the scale and 0.0001, and one of the two |
| PlasmaConfig.IterCount | components/ui/Plasma.tsx:263 | 60 iff quality ≥ 0.92, else 48 |
| PlasmaConfig.MinAlphaUniform | components/ui/Plasma.tsx:267 | in [0, 1], equal to minAlpha when that already is, and the nearer bound otherwise |
| PlasmaConfig.BaseDpr | components/ui/Plasma.tsx:212 | at most 2; an absent or zero ratio reads as 1; otherwise the ratio capped at 2 |
| PlasmaConfig.Dpr | components/ui/Plasma.tsx:212-213 | quality clamped to [0.6, 1] times the base ratio; for a non-negative ratio it is in (0, 2] and between 0.6 and 1 times the base |
| PlasmaConfig.StopColors | components/ui/Plasma.tsx:193 | six colours: `hexToRgb` of each stop, each in the unit cube |
| PlasmaConfig.InitialUniforms | components/ui/Plasma.tsx:254-274 | every bounded uniform is in range for every set of props; the tint switch is off; the pass-through uniforms carry the props; the palette is the parsed stops, the custom colour the parsed `color`, the floor and scale the clamped props, the direction its sign and the iteration count from the quality |
| PlasmaConfig.InitialUniformsOfColor | components/ui/Plasma.tsx:257 | the `color` prop reaches only the custom-colour uniform |
| PlasmaConfig.DefaultUniforms | components/ui/Plasma.tsx:165-185 | the defaults give forward direction, 48 iterations, alpha floor 0.7, scale 1 and dpr 0.6 times the base |
| PlasmaShader.Clamp | components/ui/Plasma.tsx:71 | `clamp` lies in [lo, hi], is the identity inside and the bound outside |
| PlasmaShader.Fract | components/ui/Plasma.tsx:74 | in [0, 1), and x − fract(x) is an integer |
| PlasmaShader.EaseRange | components/ui/Plasma.tsx:75 | f²(3 − 2f) lies in [0, 1] on [0, 1], and is 0 at 0 and 1 at 1 |
| PlasmaShader.EaseMonotone | components/ui/Plasma.tsx:75 | the eased weight is monotone on [0, 1] |
| PlasmaShader.MixBetween | components/ui/Plasma.tsx:76 | `mix(a, b, t)` for t in [0, 1] lies channel-wise between a and b, and is a at 0 and b at 1 |
| PlasmaShader.StopCount | components/ui/Plasma.tsx:70 | `max(uPCount, 2)` is at least 2 |
| PlasmaShader.SegmentPosition | components/ui/Plasma.tsx:71 | in [0, count − 1] |
| PlasmaShader.SegmentIndex | components/ui/Plasma.tsx:72-73 | in [0, count − 2]; it is the floor of the position except at the top end |
| PlasmaShader.SampleLinear | components/ui/Plasma.tsx:66-77 | the sample lies between the two stops of its segment |
| PlasmaShader.SampleLinearAtStop | components/ui/Plasma.tsx:71-76 | at t = k/(count − 1) with k < count − 1 the sample is exactly stop k |
| PlasmaShader.SampleLinearAtOrAboveOne | components/ui/Plasma.tsx:71-76 | for t ≥ 1 the sample is stop count − 2, not the last stop |
| PlasmaShader.SampleLinearAtOrBelowZero | components/ui/Plasma.tsx:71-76 | for t ≤ 0 the sample is the first stop |
| PlasmaShader.SampleLinearRedBetweenStops | components/ui/Plasma.tsx:66-77 | with stops rising in red, the red channel lies between the reds of the segment's stops |
| PlasmaShader.SampleLinearMonotoneInSegment | components/ui/Plasma.tsx:71-76 | within one segment the sample's red grows with t |
| PlasmaShader.SampleLinearMonotoneBelowOne | components/ui/Plasma.tsx:66-77 | for t1 ≤ t2 < 1 and stops rising in red, the sample's red is non-decreasing |
| PlasmaShader.SampleLinearDropsAtOne | components/ui/Plasma.tsx:71-76 | monotonicity fails at t = 1: the middle of the last segment is redder than t = 1 when the last stop is redder |
| PlasmaShader.MidLastSegment | components/ui/Plasma.tsx:71-75 | the midpoint of the last segment is below 1, in the last segment, at fraction and eased weight 1/2 |
| PlasmaShader.Taps | components/ui/Plasma.tsx:81-85 | five tap positions, each in [0, 1] |
| PlasmaShader.SampleSmooth | components/ui/Plasma.tsx:80-94 | with width 0 it equals `samplePaletteLinear(clamp(t))` |
| PlasmaShader.SampleLinearInBox | components/ui/Plasma.tsx:66-77 | a linear sample stays in any box holding all the used stops |
| PlasmaShader.SampleSmoothInBox | components/ui/Plasma.tsx:80-94 | the 1:2:4:2:1 average stays in any box holding the used stops (a convex combination) |
| PlasmaShader.UploadedPaletteStaysInUnitCube | components/ui/Plasma.tsx:268-273 | with the uploaded stops every palette colour is in the unit cube |
| PlasmaShader.Step | components/ui/Plasma.tsx:153 | 0 or 1, and 1 exactly when x ≥ edge |
| PlasmaShader.SmoothStep | components/ui/Plasma.tsx:158 | in [0, 1], 0 below the first edge and 1 above the second |
| PlasmaShader.Intensity | components/ui/Plasma.tsx:129 | in [0, 1] |
| PlasmaShader.Tinted | components/ui/Plasma.tsx:152-153 | the field colour when the switch is below 0.5, the intensity-scaled custom colour otherwise |
| PlasmaShader.AlphaBounds | components/ui/Plasma.tsx:158-159 | mix(minAlpha, 1, e)·opacity lies between minAlpha·opacity and opacity, with both ends reached |
| PlasmaShader.Alpha | components/ui/Plasma.tsx:158-159 | alpha lies between minAlpha·opacity and opacity; it is the floor at intensity ≤ 0.08 and the full opacity at ≥ 0.85 |
| PlasmaShader.BlendColor | components/ui/Plasma.tsx:155-156 | the strength is clamped: the colour lies between tinted and palette colour, and is one of them at the ends |
| PlasmaShader.Shade | components/ui/Plasma.tsx:152-161 | the colour and alpha bounds of the output of `main` |
| PlasmaShader.ShadeWith | components/ui/Plasma.tsx:151-161 | `main` with the uploaded uniforms: the colour lies between the tinted field colour and the smoothed palette sample, and is that sample at strength ≥ 1; the alpha is the intensity-driven `Alpha` of the floor and opacity |
| PlasmaShader.InitialUniformsUploaded | components/ui/Plasma.tsx:254-274 | the uniforms the component builds satisfy `Uploaded` |
| PlasmaShader.UploadedShadeBounds | components/ui/Plasma.tsx:155-161 | with uploaded uniforms alpha lies in [minAlpha·opacity, opacity], so in [0, 1] for opacity ≤ 1, and the custom colour never shows |
| PlasmaShader.UploadedFragmentBounds | components/ui/Plasma.tsx:151-161 | the same bounds with the smoothed palette sample as palette colour |
| PlasmaShader.ColorPropHasNoEffect | components/ui/Plasma.tsx:257-258 | changing only the `color` prop changes no fragment |
| PlasmaShader.StrengthAboveOneUsesPalette | components/ui/aurora-background.tsx:37 | a strength of 1.5, as the aurora background passes, makes the colour the palette sample |
| JsText.TrimStart | app/contact/page.tsx:38 | drops a white-space prefix and nothing else; the result starts with non-white space |
| JsText.TrimEnd | app/contact/page.tsx:38 | drops a white-space suffix and nothing else; the result ends with non-white space |
| JsText.Trim | app/contact/page.tsx:38-42 | is no longer than its input; empty exactly for all-white-space input; no white space at either end |
| JsText.TrimDecomposes | app/contact/page.tsx:38-42 | every string is white space + its trim + white space |
| JsText.TrimOfCore | app/contact/page.tsx:38-42 | the trim of lead + core + trail, with white lead and trail and a core without white ends, is the core |
| JsText.TrimPadded | app/contact/page.tsx:38 | white space added around a string does not change its trim |
| JsText.TrimIdempotent | app/contact/page.tsx:38 | trimming twice is trimming once |
| JsText.NatToString | app/api/contact/route.ts:16 | a non-empty digit string, with no leading zero except for "0" |
| JsText.DecimalValueOfNatToString | app/api/contact/route.ts:16 | the value of a numeral is its number |
| JsText.NatToStringInjective | components/ui/LiquidGlassWord.tsx:176 | distinct numbers have distinct numerals |
| HtmlEscape.ReplaceAll | app/api/contact/route.ts:63-67 | `replaceAll` of one character: identity when absent; the character is gone unless the replacement holds it |
| HtmlEscape.ReplaceAllConcat | app/api/contact/route.ts:63-67 | `replaceAll` distributes over concatenation |
| HtmlEscape.EscapeHtml | app/api/contact/route.ts:61-68 | the output contains no `<`, `>`, `"` or `'` |
| HtmlEscape.EscapeHtmlChar | app/api/contact/route.ts:63-67 | on one character the chain gives that character's entity, with no double escaping of `&` |
| HtmlEscape.EscapeHtmlIsEscapeMap | app/api/contact/route.ts:61-68 | the chain of five replacements equals the one-pass per-character escape |
| HtmlEscape.EscapeHtmlPlain | app/api/contact/route.ts:61-68 | identity on strings without the five special characters |
| HtmlEscape.UnescapeEscapeHtml | app/api/contact/route.ts:61-68 | decoding the five entities gives back the input |
| HtmlEscape.EscapeHtmlInjective | app/api/contact/route.ts:61-68 | different inputs give different outputs |
| HtmlEscape.CountEscaped | app/api/contact/route.ts:61-68 | none of `<`, `>`, `"`, `'` occurs in the output |
| HtmlEscape.EscapeHtmlLength | app/api/contact/route.ts:63-67 | the output length is n + 4·#& + 3·#< + 3·#> + 5·#" + 5·#' |
| ContactMail.Subject | app/api/contact/route.ts:34 | "BLUEPMS Callback Request – " (an en dash) followed by the unescaped name |
| ContactMail.RenderParts | app/api/contact/route.ts:35-43 | the html body opens with the fixed markup, then the escaped name; it ends with the escaped message and the closing markup |
| ContactMail.Text | app/api/contact/route.ts:51 | "Name: " and the raw name first, the raw message last, with 19 characters of labels and newlines between the fields |
| ContactMail.HtmlMarkupFixed | app/api/contact/route.ts:35-43 | the html body holds the same number of `<`, `>`, `"` and `'` whatever the fields: user text cannot add markup |
| ContactApi.SignedDecimal | app/api/contact/route.ts:16 | `Number` of a digit string is its decimal value |
| ContactApi.ToNumber | app/api/contact/route.ts:16 | `Number` of a blank string is 0 |
| ContactApi.ToNumberOfNumeral | app/api/contact/route.ts:16 | a port written out, with white space around it, reads back as that port |
| ContactApi.SmtpPort | app/api/contact/route.ts:16 | 587 when SMTP_PORT is unset or empty |
| ContactApi.TransportFor | app/api/contact/route.ts:15-32 | host defaults to smtp.gmail.com; `secure` iff port 465; `requireTLS` iff 587, never both; the credentials |
| ContactApi.MailFor | app/api/contact/route.ts:19-52 | from = MAIL_FROM else the user; to = MAIL_TO else the built-in address; reply-to, unescaped subject, escaped html, plain text |
| ContactApi.PlanRequest | app/api/contact/route.ts:11-32 | 400 iff a field is missing; otherwise 500 iff credentials are missing; otherwise deliver with that transport and mail |
| ContactApi.ErrorBody | app/api/contact/route.ts:57 | never empty; the error message when it has one |
| ContactApi.Post | app/api/contact/route.ts:7-59 | status 200, 400 or 500 with a non-empty body; 200 "OK" iff everything is present and the mail went out; 400 iff a field is missing; a body that does not parse, a `null` body and a failed send give 500 with the error's message |
| ContactApi.MissingFieldsIgnoreServer | app/api/contact/route.ts:11-13 | a missing field gets the same 400 whatever the environment and the mail server do |
| ContactForm.IndexOf | app/contact/page.tsx:38 | the first position of the character |
| ContactForm.EmailShapeIsPattern | app/contact/page.tsx:38 | the structural conditions hold iff the string matches `^[^\s@]+@[^\s@]+\.[^\s@]+$` |
| ContactForm.ShapeToPattern | app/contact/page.tsx:38 | the conditions give a match |
| ContactForm.PatternToShape | app/contact/page.tsx:38 | a match gives the conditions |
| ContactForm.EmailShapeParts | app/contact/page.tsx:38 | no white space, exactly one `@` with a non-empty part before it, a `.` in the domain neither first nor last |
| ContactForm.IsValidEmailMatchesPattern | app/contact/page.tsx:38 | `isValidEmail(v)` iff trim(v) matches the pattern |
| ContactForm.IsValidEmailTrimInsensitive | app/contact/page.tsx:38 | white space around the value never changes the verdict |
| ContactForm.IsValidEmailOfTrim | app/contact/page.tsx:38 | `isValidEmail(trim(v)) == isValidEmail(v)` |
| ContactForm.CanSubmitFields | app/contact/page.tsx:41-44 | `canSubmit` iff the name is not blank, the e-mail is valid and the message is not blank |
| ContactForm.EmailErrorVisible | app/contact/page.tsx:181-194 | the error shows iff the field was blurred, is non-empty and is invalid |
| ContactForm.EmptyFormBlocked | app/contact/page.tsx:60-63 | the cleared form cannot be submitted and shows no error |
| ContactForm.SubmittableShowsNoError | app/contact/page.tsx:194 | a submittable form never shows the e-mail error |
| ContactForm.Payload | app/contact/page.tsx:58 | the body carries the three fields untrimmed |
| ContactForm.SubmittableFieldsNonEmpty | app/contact/page.tsx:41-44 | a submittable form has three non-empty fields |
| ContactForm.SubmittablePassesServerCheck | app/contact/page.tsx:41-58 | what the page lets through passes the endpoint's missing-field check and never gets 400 |
| ContactForm.Form.constructor | app/contact/page.tsx:33-36 | all fields empty, not touched; nothing to submit, no error |
| ContactForm.Form.ChangeName | app/contact/page.tsx:146 | sets the name and nothing else |
| ContactForm.Form.ChangeEmail | app/contact/page.tsx:177 | sets the e-mail and nothing else; no error before a blur |
| ContactForm.Form.BlurEmail | app/contact/page.tsx:178-194 | marks the field touched; the error then shows iff the e-mail is non-empty and invalid |
| ContactForm.Form.ChangeMessage | app/contact/page.tsx:222 | sets the message and nothing else |
| ContactForm.Form.Reset | app/contact/page.tsx:62-63 | the three fields empty and not touched; the form cannot be submitted and shows no error |
| ContactForm.Form.OnSubmit | app/contact/page.tsx:53-68 | nothing posted or changed unless `canSubmit`; otherwise the payload is posted; a 2xx reply thanks and clears the form (which then cannot be submitted), any other reply shows its text and leaves the state as it was; a fetch or `res.text()` that rejects (no reply) shows nothing and changes nothing |
| ContactForm.WhatsAppText | app/contact/page.tsx:47-49 | the greeting and name first, the message last, with 20 characters of labels and newlines between the fields |
| ContactForm.WhatsAppLink | app/contact/page.tsx:50 | `https://wa.me/14258940847?text=` followed by the message text |
| ContactForm.Form.OnWhatsApp | app/contact/page.tsx:46-73 | nothing unless `canSubmit`; otherwise the wa.me link carrying the WhatsApp message of the current fields |
| ContactForm.PostOfPresentFields | app/api/contact/route.ts:11-54 | with fields present: 200 with credentials and a sent mail, 500 with the error's message with credentials and a failed send, 500 "SMTP credentials missing" without credentials |
| ContactForm.SubmitToEndpoint | app/contact/page.tsx:53-68 | a form that cannot be submitted is left alone; a submittable form posted to the endpoint is thanked and cleared when the mail goes out; a failed send shows the error's message and a missing credential shows "SMTP credentials missing", both leaving the form unchanged |
| GlassWord.FontSize | components/ui/LiquidGlassWord.tsx:149 | at least 1.35; 1.35 up to height 220, height/220·1.35 above it |
| GlassWord.Positions | components/ui/LiquidGlassWord.tsx:150-178 | one position per letter |
| GlassWord.Letters | components/ui/LiquidGlassWord.tsx:146-181 | one letter per character, at `startX + i·spacing` |
| GlassWord.LettersSpellWord | components/ui/LiquidGlassWord.tsx:146-181 | the letters spell the word in order, all at the font size |
| GlassWord.KeyInjective | components/ui/LiquidGlassWord.tsx:176 | `${c}-${i}` determines c and i |
| GlassWord.KeysDistinct | components/ui/LiquidGlassWord.tsx:174-176 | the keys are pairwise distinct, even for repeated characters |
| GlassWord.ConstantGap | components/ui/LiquidGlassWord.tsx:150-178 | neighbours are exactly one font size apart |
| GlassWord.PositionsIncrease | components/ui/LiquidGlassWord.tsx:178 | positions increase strictly for a positive font size |
| GlassWord.LettersIncrease | components/ui/LiquidGlassWord.tsx:149-178 | the word's letters are laid out left to right, one font size apart |
| GlassWord.WordPlacement | components/ui/LiquidGlassWord.tsx:151-178 | the first letter at −0.6(n−1)·spacing, the last at +0.4(n−1)·spacing |
| GlassWord.SingleLetterCentred | components/ui/LiquidGlassWord.tsx:151-152 | a one-letter word sits at 0 |
| GlassWord.StartX | components/ui/LiquidGlassWord.tsx:151-152 | 0 for one letter; never to the right of the origin for a non-negative spacing |
| GlassWord.Key | components/ui/LiquidGlassWord.tsx:176 | the character, a `-`, then the decimal index |
| GlassWord.DefaultLayout | components/ui/LiquidGlassWord.tsx:140-152 | BLUEPMS at height 220: seven letters of size 1.35 from −4.86 to 3.24 |
| Sitemap.EntryFor | app/sitemap.ts:7-11 | url = origin + route; weekly; stamped now; priority 1.0 iff the root, else 0.8 |
| Sitemap.SitemapOf | app/sitemap.ts:7-12 | one entry per route, in order |
| Sitemap.SitemapEntries | app/sitemap.ts:7-11 | every entry is weekly, on the origin, and has priority 1 only for the root |
| Sitemap.UrlsDistinct | app/sitemap.ts:8 | different routes get different urls |
| Sitemap.SiteSitemap | app/sitemap.ts:5-12 | the site's sitemap: the home page at 1.0, then /contact at 0.8 |

## Left out

- WebGL and ogl setup (components/ui/Plasma.tsx:215-276): renderer, program, mesh, blend state and canvas styling are foreign library calls. Only the uniform values are modelled.
- Render loop and teardown (components/ui/Plasma.tsx:278-306): `ResizeObserver`, `queueMicrotask`, `requestAnimationFrame` and cleanup are browser scheduling, and the uniform updates they make are not modelled.
- The plasma field shader (`mainImage`, `tanh`, `darkWave`, `fwidth`, `pow`): floating-point GPU numerics. Its outputs (`base`, `tMod`, `wBoost`) are parameters of `PlasmaShader.ShadeWith`.
- `mouseInteractive` and `depsKey`: the prop is unused, and the key only drives React's effect dependencies.
- Floating point: every number of the Plasma and layout code is an exact `real`. Rounding, NaN and infinities are not modelled.
- Negative and non-finite device pixel ratios: `PlasmaConfig.Dpr` proves the bound (0, 2] only for an absent or non-negative ratio.
- PlasmaShader.SampleLinearRedBetweenStops, SampleLinearMonotoneInSegment, SampleLinearMonotoneBelowOne: stated for the red channel only; the green and blue channels are computed the same way.
- The glass letters' materials, the backdrop shader, lights and the `useFrame` animation (components/ui/LiquidGlassWord.tsx:11-135,156-193): a 3D library and float shaders.
- Contact I/O:
  - `req.json()` is the `Body` datatype: a body that does not parse is `Malformed` with its error message, and a JSON `null`, whose destructuring throws a TypeError, is `Null` with that message as a parameter (the engine's wording is not modelled);
  - the environment is the `Env` record;
  - nodemailer `createTransport`/`sendMail` are replaced by the `SendResult` parameter, so a thrown error carries only its message;
  - `console.error(err)` (app/api/contact/route.ts:56) is logging with no effect on the reply and is dropped.
- JSON values other than strings in the posted fields: a field is modelled as present (a string) or absent.
- ContactApi.ToNumber: `Number` is modelled for optionally signed decimal integers with surrounding white space; hex, octal, binary, exponents, fractions and `Infinity` are not, and give NaN.
- Strings are sequences of Unicode scalar values: the UTF-16 code units of `split("")`, `length` and `trim` are not modelled, so a character outside the Basic Multilingual Plane counts as one letter.
- The html body of the mail is the `HtmlBody` datatype, rendered by `HtmlBody.Render`; the whitespace of the template literal is reproduced as written.
- `fetch`, `alert` and `window.open` on the contact page: the endpoint's reply is the `Option<Response>` parameter of `ContactForm.Form.OnSubmit`, `None` standing for a `fetch` or `res.text()` that rejects (app/contact/page.tsx:55,65: the rejection escapes the handler, nothing is shown and the state is kept); the notice the user would see is its result.
- ContactForm.WhatsAppLink: the `encodeURIComponent` percent-encoding of the text is not modelled; the link carries the text as is.
- Concurrency: handlers run one at a time; interleavings while `onSubmit` awaits the reply are not modelled.
- The sitemap clock: `lastModified` is the parameter `now`.
- The declarative UI (framer-motion variants, sections, styling and layout) has no behaviour beyond rendering.
