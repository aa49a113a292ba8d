/** The derived fields of the HTML view model: the status label and the
    five-star rendering of a rating held in tenths. */
module ViewModel {
  import opened Text

  /** `getStatusLabel`. */
  function StatusLabel(finished: bool): (s: string)
    ensures s == "Finished" <==> finished
    ensures s == "Ongoing" <==> !finished
  {
    if finished then "Finished" else "Ongoing"
  }

  /** `(int) Math.round(rating / 2.0)` for a rating of `tenths / 10`:
      `Math.round` is `floor(x + 0.5)`, so this is `floor((tenths + 10) / 20)`. */
  function Stars(tenths: int): (stars: int)
    ensures 20 * stars - 10 <= tenths < 20 * stars + 10
  {
    (tenths + 10) / 20
  }

  /** The nearest whole number of stars, halves rounded up, is unique. */
  lemma StarsUnique(tenths: int, k: int)
    requires 20 * k - 10 <= tenths < 20 * k + 10
    ensures Stars(tenths) == k
  {
  }

  function Max0(n: int): nat {
    if n < 0 then 0 else n
  }

  /** `getRatingStars`: `max(0, stars)` filled stars, then `max(0, 5 - stars)` empty ones. */
  function RatingStars(tenths: int): (r: string)
    ensures |r| == Max0(Stars(tenths)) + Max0(5 - Stars(tenths))
    ensures forall i | 0 <= i < Max0(Stars(tenths)) :: r[i] == '★'
    ensures forall i | Max0(Stars(tenths)) <= i < |r| :: r[i] == '☆'
  {
    var stars := Stars(tenths);
    Repeat('★', Max0(stars)) + Repeat('☆', Max0(5 - stars))
  }

  /** A rating between 0 and 10 renders as exactly five symbols. */
  lemma FiveSymbols(tenths: int)
    requires 0 <= tenths <= 100
    ensures |RatingStars(tenths)| == 5
    ensures 0 <= Stars(tenths) <= 5
  {
  }

  /** 8.6 rounds to 4.3 and renders as four filled stars and one empty one. */
  lemma EightPointSix()
    ensures RatingStars(86) == "★★★★☆"
  {
    assert Stars(86) == 4;
    var r := RatingStars(86);
    assert |r| == 5;
  }
}
