/**
 * The `match` view of app/routes.py: look the match up, record a valid
 * score submission under the current user's next turn, and list the
 * match's scores.
 */
module Routes {
  import opened Wrappers
  import opened Scores
  import opened Ledger
  import Validators
  import Forms

  /** A request to the view: a plain visit, or a posted score form with the text of its fields. */
  datatype Request = Visit | Submit(form: Validators.FormData)

  datatype Response = NotFound | MatchPage(game: int, scores: seq<Score>)

  /**
   * The validators of the score form consult neither users nor e-mail
   * syntax; `parseInt` is Python's parsing of the field's text.
   */
  function ScoreFormContext(parseInt: string -> Option<int>): Validators.Context {
    Validators.Context({}, _ => false, parseInt)
  }

  /** `form.validate_on_submit()` for the score form: a posted score that parses as an integer. */
  function Accepted(req: Request, parseInt: string -> Option<int>): (ok: bool)
    ensures ok <==> req.Submit? && "score" in req.form && parseInt(req.form["score"]).Some?
  {
    req.Submit? &&
    var ctx := ScoreFormContext(parseInt);
    Forms.AddScoreAccepts(req.form, ctx);
    Validators.Validate(Forms.AddScoreForm, req.form, ctx)
  }

  /**
   * Handles `/match/<id>` for the signed-in `user`; `matches` are the
   * ids of the stored matches.
   */
  method MatchView(table: ScoreTable, matches: set<int>, id: int, user: int, req: Request,
                   parseInt: string -> Option<int>)
    returns (resp: Response)
    requires table.Valid()
    modifies table
    ensures table.Valid()
    ensures id !in matches ==> resp == NotFound && table.rows == old(table.rows)
    ensures id in matches && Accepted(req, parseInt) ==>
              table.rows == old(table.rows) + [Allocate(old(table.rows), user, id, parseInt(req.form["score"]).value)]
    ensures id in matches && !Accepted(req, parseInt) ==> table.rows == old(table.rows)
    ensures id in matches ==> resp == MatchPage(id, table.ScoresOfMatch(id))
  {
    if id !in matches {
      return NotFound;
    }
    if Accepted(req, parseInt) {
      var _ := table.Add(user, id, parseInt(req.form["score"]).value);
    }
    resp := MatchPage(id, table.ScoresOfMatch(id));
  }
}
